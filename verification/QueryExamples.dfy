/** Queries on tables of a few rows, with the rows that come back. */
module QueryExamples {
  import opened Wrappers
  import opened FixedWidth
  import opened Expressions
  import opened Bitmaps
  import opened Tables
  import opened FilterExecution
  import opened PlanSteps
  import opened Queries
  import opened Correctness
  import opened SafeLayouts
  import opened QueryCompilers
  import opened OptimiserOnLayouts

  // ----- one column in one chunk -----

  function OneColumn(name: string, t: DataType, values: seq<int>): Table {
    Table([Column(Field(name, t), [values])])
  }

  /** Rows of one value each. */
  function Singles(values: seq<int>): seq<Row> {
    seq(|values|, k requires 0 <= k < |values| => [values[k]])
  }

  lemma OneColumnRows(name: string, ty: DataType, values: seq<int>)
    requires |values| < 0x8000_0000 && forall k | 0 <= k < |values| :: InRange(ty, values[k])
    ensures var t := OneColumn(name, ty, values);
      && Sound(t) && AllAdmissible(t) && HasChunks(t)
      && HasField(Schema(t), name) && RelationOf(t) == Relation([Field(name, ty)], Singles(values))
  {
    var t := OneColumn(name, ty, values);
    assert [values][..0] == [] && [] + values == values;
    assert Flatten([values]) == values;
    assert Lens([values]) == [|values|];
    OneChunkIsAdmissible(|values|);
    assert Schema(t)[0] == Field(name, ty);
    forall k | 0 <= k < |values|
      ensures RowOf(t, k) == [values[k]]
    {
      assert RowOf(t, k)[0] == values[k];
    }
  }

  /** Filters a single column of values, in one chunk. */
  method FilterValues(name: string, ty: DataType, values: seq<int>, e: BooleanExpr) returns (result: Option<Table>)
    requires |values| < 0x8000_0000 && forall k | 0 <= k < |values| :: InRange(ty, values[k])
    requires Resolves([Field(name, ty)], e) && ExactIn([Field(name, ty)], e)
    ensures result.Some? && Rectangular(result.value)
    ensures WellFormed(Relation([Field(name, ty)], Singles(values)))
    ensures RelationOf(result.value)
         == Relation([Field(name, ty)], KeepRows(Numeric, [Field(name, ty)], Singles(values), e))
  {
    var t := OneColumn(name, ty, values);
    OneColumnRows(name, ty, values);
    OneFilterRuns(t, e);
    var empty := new QueryCompiler();
    var q := empty.Filter(e);
    assert q.ops == [Where(e)];
    result := q.Execute(t);
  }

  lemma OneFilterRuns(t: Table, e: BooleanExpr)
    requires Sound(t) && AllAdmissible(t) && HasChunks(t) && Resolves(Schema(t), e) && ExactIn(Schema(t), e)
    ensures var ops := [Where(e)];
      && WellTyped(ops, Schema(t)) && Exact(ops, Schema(t)) && !FindsNoChunks(ops, t)
      && FirstAdmissible(Fuse(ops), t) && FirstSafe(Fuse(ops), t)
      && Meaning(Numeric, ops, RelationOf(t)) == Apply(Numeric, Where(e), RelationOf(t))
  {
    var ops := [Where(e)];
    SingleFilter(Numeric, e, RelationOf(t));
    assert ops[1..] == [] && [] + ops == ops;
    FuseKeepsFused([], ops);
    AllAdmissibleFirst(ops, t);
    FirstAdmissibleIsSafe(ops, t);
    ChunksAreFound(ops, t);
  }

  /** Whether a value is kept, and the values before it. */
  lemma KeepNext(field: Field, values: seq<int>, v: int, e: BooleanExpr)
    requires Resolves([field], e)
    ensures WellFormed(Relation([field], Singles(values))) && WellFormed(Relation([field], Singles(values + [v])))
    ensures KeepRows(Numeric, [field], Singles(values + [v]), e)
         == KeepRows(Numeric, [field], Singles(values), e)
          + (if RowSatisfies(Numeric, [field], [v], e) then [[v]] else [])
  {
    assert Singles(values + [v]) == Singles(values) + [[v]];
    KeepRowsOne(Numeric, [field], Singles(values), [v], e);
  }

  lemma OnlyField(field: Field)
    ensures HasField([field], field.name)
  {
    assert [field][0].name == field.name;
  }

  // ----- comparisons -----

  /** 3 and 7, filtered for a > 5. */
  method GreaterExample() returns (result: Option<Table>)
    ensures result.Some? && Rectangular(result.value)
    ensures RelationOf(result.value) == Relation([Field("a", Int32)], [[7]])
  {
    var e := Compare("a", GT, 5);
    ghost var field := Field("a", Int32);
    OnlyField(field);
    result := FilterValues("a", Int32, [3, 7], e);
    KeepNext(field, [], 3, e);
    KeepNext(field, [3], 7, e);
    assert [] + [3] == [3] && [3] + [7] == [3, 7];
  }

  /** 70000 is not taken for 4464, which is what is left of it in 16 bits. */
  method WidthExample() returns (result: Option<Table>)
    ensures result.Some? && Rectangular(result.value)
    ensures RelationOf(result.value) == Relation([Field("a", Int32)], [])
  {
    var e := Compare("a", EQ, 4464);
    ghost var field := Field("a", Int32);
    OnlyField(field);
    result := FilterValues("a", Int32, [70000], e);
    KeepNext(field, [], 70000, e);
    assert [] + [70000] == [70000];
  }

  /** -1 is less than 0 in a signed column. */
  method SignExample() returns (result: Option<Table>)
    ensures result.Some? && Rectangular(result.value)
    ensures RelationOf(result.value) == Relation([Field("a", Int32)], [[-1]])
  {
    var e := Compare("a", LT, 0);
    ghost var field := Field("a", Int32);
    OnlyField(field);
    result := FilterValues("a", Int32, [-1], e);
    KeepNext(field, [], -1, e);
    assert [] + [-1] == [-1];
  }

  /** 1, 2 and 3, filtered for a == 1 or a == 2. */
  method EitherExample() returns (result: Option<Table>)
    ensures result.Some? && Rectangular(result.value)
    ensures RelationOf(result.value) == Relation([Field("a", Int8)], [[1], [2]])
  {
    var e := Predicate(Compare("a", EQ, 1), Compare("a", EQ, 2), OR);
    ghost var field := Field("a", Int8);
    OnlyField(field);
    result := FilterValues("a", Int8, [1, 2, 3], e);
    KeepNext(field, [], 1, e);
    KeepNext(field, [1], 2, e);
    KeepNext(field, [1, 2], 3, e);
    assert [] + [1] == [1] && [1] + [2] == [1, 2] && [1, 2] + [3] == [1, 2, 3];
  }

  // ----- no chunks -----

  /** A column without chunks cannot be filtered: materialising throws. */
  method NoChunksExample() returns (result: Option<Table>)
    ensures result == None
  {
    var e := Compare("a", EQ, 0);
    var t := Table([Column(Field("a", Int8), [])]);
    assert Schema(t)[0] == Field("a", Int8) && Schema(t) == [Field("a", Int8)];
    OnlyField(Field("a", Int8));
    SingleFilter(Narrowed, e, RelationOf(t));
    assert [Where(e)][1..] == [] && [] + [Where(e)] == [Where(e)];
    FuseKeepsFused([], [Where(e)]);
    var empty := new QueryCompiler();
    var q := empty.Filter(e);
    assert q.ops == [Where(e)];
    result := q.Execute(t);
  }

  // ----- projections -----

  function TwoValues(a: int, b: int): Table {
    Table([Column(Field("a", Int8), [[a]]), Column(Field("b", Int8), [[b]])])
  }

  lemma SingleValue(name: string, v: int)
    requires InRange(Int8, v)
    ensures var c := Column(Field(name, Int8), [[v]]);
      Flatten(c.chunks) == [v] && Fits(c.chunks, 1) && HoldsValuesOf(c, Int8)
  {
    assert [[v]][..0] == [] && [] + [v] == [v];
  }

  lemma TwoValuesRow(a: int, b: int)
    requires InRange(Int8, a) && InRange(Int8, b)
    ensures var t := TwoValues(a, b);
      && Sound(t) && Schema(t) == [Field("a", Int8), Field("b", Int8)]
      && HasField(Schema(t), "a") && HasField(Schema(t), "b")
      && RelationOf(t).rows == [[a, b]]
  {
    var t := TwoValues(a, b);
    SingleValue("a", a);
    SingleValue("b", b);
    TwoNames(Schema(t));
    RowWritten(t, 0);
    assert RowOf(t, 0) == [a, b];
  }

  /** Names both columns of a table of one row, in any order. */
  method ProjectTwo(first: string, second: string, a: int, b: int) returns (result: Option<Table>)
    requires InRange(Int8, a) && InRange(Int8, b)
    requires first in ["a", "b"] && second in ["a", "b"]
    ensures result.Some? && |result.value.columns| == 2 && Rectangular(result.value)
    ensures result.value.columns[0].field.name == first && result.value.columns[1].field.name == second
    ensures RelationOf(result.value).rows == [[if first == "a" then a else b, if second == "a" then a else b]]
  {
    var t, names := TwoValues(a, b), [first, second];
    TwoValuesRow(a, b);
    ProjectionRuns(t, names);
    var empty := new QueryCompiler();
    var q := empty.Project(names);
    assert q.ops == [Select(names)];
    result := q.Execute(t);
    TwoPicked(a, b, first, second);
  }

  lemma ProjectionRuns(t: Table, names: seq<string>)
    requires Sound(t) && Names(Schema(t), names) && |names| < 0x8000_0000
    ensures var ops := [Select(names)];
      && WellTyped(ops, Schema(t)) && !FindsNoChunks(ops, t)
      && FirstAdmissible(Fuse(ops), t) && FirstSafe(Fuse(ops), t)
      && Meaning(Narrowed, ops, RelationOf(t)) == Apply(Narrowed, Select(names), RelationOf(t))
  {
    var ops := [Select(names)];
    assert ops[1..] == [] && [] + ops == ops;
    FuseKeepsFused([], ops);
    OnlyProjections(ops, t);
    assert FirstAdmissible([], ProjectTable(t, names));
    FirstAdmissibleIsSafe(ops, t);
  }

  lemma TwoPicked(a: int, b: int, first: string, second: string)
    requires InRange(Int8, a) && InRange(Int8, b)
    requires first in ["a", "b"] && second in ["a", "b"]
    ensures Sound(TwoValues(a, b)) && WellTyped([Select([first, second])], Schema(TwoValues(a, b)))
    ensures Apply(Narrowed, Select([first, second]), RelationOf(TwoValues(a, b))).rows
         == [[if first == "a" then a else b, if second == "a" then a else b]]
  {
    TwoValuesRow(a, b);
    var rel := RelationOf(TwoValues(a, b));
    ProjectionWritten(Narrowed, rel, [first, second]);
    var picked := Apply(Narrowed, Select([first, second]), rel);
    assert rel.fields[0].name == "a" && rel.fields[1].name == "b";
    assert picked.rows[0] == [if first == "a" then a else b, if second == "a" then a else b];
  }

  /** A row of a and b, by name in both orders. */
  method ProjectExample() returns (straight: Option<Table>, swapped: Option<Table>)
    ensures straight.Some? && |straight.value.columns| == 2 && Rectangular(straight.value)
    ensures straight.value.columns[0].field.name == "a" && straight.value.columns[1].field.name == "b"
    ensures RelationOf(straight.value).rows == [[1, 2]]
    ensures swapped.Some? && |swapped.value.columns| == 2 && Rectangular(swapped.value)
    ensures swapped.value.columns[0].field.name == "b" && swapped.value.columns[1].field.name == "a"
    ensures RelationOf(swapped.value).rows == [[2, 1]]
  {
    assert "a"[0] != "b"[0];
    straight := ProjectTwo("a", "b", 1, 2);
    swapped := ProjectTwo("b", "a", 1, 2);
  }

  // ----- bitmaps -----

  /** Eight rows fit one byte, nine take two, and no rows none. */
  lemma BytesExample()
    ensures BytesFor(0) == 0 && BytesFor(8) == 1 && BytesFor(9) == 2
  {
  }
}
