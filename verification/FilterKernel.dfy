/** The compiled filter kernel of pefa/kernels/filter.cpp: the loops it emits, as the
    in-place methods they are. */
module FilterKernels {
  import opened Bitmaps
  import opened FixedWidth
  import opened Expressions
  import opened PredicateCompiler

  datatype Status = Finished | KernelNotCompiled

  /** The truth values of a predicate on stored values, row by row. */
  ghost function Rows(truth: int -> bool, values: seq<int>): (r: seq<bool>)
    ensures |r| == |values|
  {
    seq(|values|, i requires 0 <= i < |values| => truth(values[i]))
  }

  lemma RowsSlice(truth: int -> bool, values: seq<int>, i: nat, j: nat)
    requires i <= j <= |values|
    ensures Rows(truth, values[i..j]) == Rows(truth, values)[i..j]
  {
  }

  /** Filtering by rows up to i and then, at their place, by rows i to j filters by rows
      up to j. */
  lemma FilteredOnward(bits: seq<bool>, at: nat, rows: seq<bool>, i: nat, j: nat, place: nat)
    requires i <= j <= |rows| && place == at + i
    ensures Filtered(Filtered(bits, at, rows[..i]), place, rows[i..j]) == Filtered(bits, at, rows[..j])
  {
    FilteredAppend(bits, at, rows[..i], rows[i..j]);
    assert rows[..i] + rows[i..j] == rows[..j];
  }

  /** Conversion to uint8_t. */
  function ToUInt8(x: int): nat {
    x % 0x100
  }

  /** The bytes `execute` reads and writes, for a chunk of so many rows, lie in the chunk
      and in a bitmap of so many bytes.  The length passed on is chunkLength - offset in
      unsigned 64-bit arithmetic, which wraps if the chunk is shorter than the offset. */
  predicate InBounds(chunkLength: nat, base: nat, offset: nat, bytes: nat) {
    var length := ToUInt64(chunkLength - offset);
    && offset + length / 8 * 8 <= chunkLength
    && base + (if offset != 0 then 1 else 0) + length / 8 <= bytes
  }

  /** The number of rows `execute_remaining` filters. */
  function RemainingLength(chunkLength: nat, arrayOffset: nat, bitOffset: nat): nat
    requires arrayOffset <= chunkLength
  {
    var rest := ToUInt8(chunkLength - arrayOffset);
    if arrayOffset == 0 then
      if rest < ToUInt8(8 - bitOffset) then rest else ToUInt8(8 - bitOffset)
    else rest
  }

  class FilterKernel {
    const column: string
    const t: DataType
    const expr: BooleanExpr
    var isCompiled: bool
    /** The compiled predicate function, on stored values. */
    var matches: int -> bool

    constructor CreateCpu(column: string, t: DataType, expr: BooleanExpr)
      ensures this.column == column && this.t == t && this.expr == expr
      ensures !isCompiled
    {
      this.column := column;
      this.t := t;
      this.expr := expr;
      isCompiled := false;
      matches := _ => false;
    }

    /** Compiles the expression: the predicate function runs the emitted instructions on
        the bit pattern of its argument, and so computes the expression. */
    method Compile()
      requires OverColumn(expr, column)
      modifies this
      ensures isCompiled
      ensures forall v :: matches(v) == MatchesPattern(expr, t, Pattern(t, v))
    {
      var builder := new IRBuilder();
      var visitor := new IrEmitVisitor(column, t, builder);
      visitor.Visit(expr);
      var code, result := builder.code, visitor.result.value;
      matches := v => Evaluate(t, code, result, Pattern(t, v)) == Truth(true);
      isCompiled := true;
      forall v
        ensures matches(v) == MatchesPattern(expr, t, Pattern(t, v))
      {
        assert Evaluate(t, code, result, Pattern(t, v)) == Truth(MatchesPattern(expr, t, Pattern(t, v)));
      }
    }

    /** One byte of predicate results, first row in the most significant bit. */
    method PredicateByte(src: seq<int>) returns (tmp: bv8)
      requires |src| == 8
      ensures forall k: nat | k < 8 :: Bit(tmp, k) == Rows(matches, src)[k]
    {
      tmp := 0;
      var j := 0;
      forall k: nat | k < 8
        ensures !Bit(0, k)
      {
        BitOfZero(k);
      }
      while j < 8
        invariant 0 <= j <= 8
        invariant forall k: nat | k < 8 :: Bit(tmp, k) == (k < j && Rows(matches, src)[k])
      {
        var bit := AsBit(matches(src[j])) << (7 - j);
        forall k: nat | k < 8
          ensures Bit(tmp | bit, k) == (k < j + 1 && Rows(matches, src)[k])
        {
          BitOfOr(tmp, bit, k);
          BitOfShift(matches(src[j]), j, k);
        }
        tmp := tmp | bit;
        j := j + 1;
      }
    }

    /** out[i] &= tmp_bitmap, for the eight rows of one byte. */
    method FilterByte(src: seq<int>, bitmap: array<bv8>, at: nat)
      requires |src| == 8 && at < bitmap.Length
      modifies bitmap
      ensures Bits(bitmap[..]) == Filtered(old(Bits(bitmap[..])), 8 * at, Rows(matches, src))
    {
      var tmp := PredicateByte(src);
      ghost var bytes, rows := bitmap[..], Rows(matches, src);
      assert forall j: nat | j < 8 :: Bit(tmp, j) == rows[j];
      AndByteFiltersAll(bytes, at, tmp, rows);
      bitmap[at] := bitmap[at] & tmp;
      assert bitmap[..] == bytes[at := bytes[at] & tmp];
    }

    /** *arg_dest &= mask, for one row within a byte. */
    method FilterRow(v: int, bitmap: array<bv8>, base: nat, j: nat)
      requires base < bitmap.Length && j < 8
      modifies bitmap
      ensures Bits(bitmap[..]) == Filtered(old(Bits(bitmap[..])), 8 * base + j, Rows(matches, [v]))
    {
      var bit := matches(v);
      var mask := !(((!AsBit(bit)) & 1) << (7 - j));
      forall k: nat | k < 8
        ensures Bit(mask, k) == (bit || k != j)
      {
        BitOfMask(bit, j, k);
      }
      ghost var bytes := bitmap[..];
      AndByteFilters(bytes, base, mask, 8 * base + j, Rows(matches, [v]));
      bitmap[base] := bitmap[base] & mask;
      assert bitmap[..] == bytes[base := bytes[base] & mask];
    }

    /** One iteration of the emitted `filter` function: eight rows into one byte. */
    method FilterFuncStep(source: seq<int>, i: nat, bitmap: array<bv8>, out: nat, ghost before: seq<bool>)
      requires i * 8 + 8 <= |source| && out + i < bitmap.Length
      requires Bits(bitmap[..]) == Filtered(before, 8 * out, Rows(matches, source)[..i * 8])
      modifies bitmap
      ensures Bits(bitmap[..]) == Filtered(before, 8 * out, Rows(matches, source)[..(i + 1) * 8])
    {
      var src := i * 8;
      FilterByte(source[src..src + 8], bitmap, out + i);
      RowsSlice(matches, source, src, src + 8);
      FilteredOnward(before, 8 * out, Rows(matches, source), src, src + 8, 8 * (out + i));
    }

    /** The emitted `filter` function: eight rows at a time into whole bytes; fewer than
        eight rows at the end are left alone. */
    method FilterFunc(source: seq<int>, length: nat, bitmap: array<bv8>, out: nat)
      requires length / 8 * 8 <= |source| && out + length / 8 <= bitmap.Length
      modifies bitmap
      ensures Bits(bitmap[..])
           == Filtered(old(Bits(bitmap[..])), 8 * out, Rows(matches, source)[..length / 8 * 8])
    {
      ghost var before, p := Bits(bitmap[..]), matches;
      FilteredByNothing(before, 8 * out);
      var i, whole := 0, length / 8;
      while i < whole
        invariant 0 <= i <= whole
        invariant matches == p
        invariant Bits(bitmap[..]) == Filtered(before, 8 * out, Rows(p, source)[..i * 8])
      {
        FilterFuncStep(source, i, bitmap, out, before);
        i := i + 1;
      }
    }

    /** The emitted `filter_remaining` function: row by row within one byte. */
    method FilterRemainingFunc(source: seq<int>, bitmap: array<bv8>, base: nat, bitOffset: nat)
      requires base < bitmap.Length && bitOffset + |source| <= 8
      modifies bitmap
      ensures Bits(bitmap[..]) == Filtered(old(Bits(bitmap[..])), 8 * base + bitOffset, Rows(matches, source))
    {
      ghost var before, p := Bits(bitmap[..]), matches;
      ghost var rows := Rows(p, source);
      ghost var now := before;
      FilteredByNothing(before, 8 * base + bitOffset);
      var i := 0;
      while i < |source|
        invariant 0 <= i <= |source|
        invariant matches == p
        invariant now == Filtered(before, 8 * base + bitOffset, rows[..i])
        invariant Bits(bitmap[..]) == now
      {
        FilterRow(source[i], bitmap, base, i + bitOffset);
        assert source[i..i + 1] == [source[i]];
        RowsSlice(p, source, i, i + 1);
        FilteredOnward(before, 8 * base + bitOffset, rows, i, i + 1, 8 * base + (i + bitOffset));
        now := Filtered(now, 8 * base + (i + bitOffset), rows[i..i + 1]);
        i := i + 1;
      }
      assert rows[..i] == rows;
    }

    /** Filters the rows of a chunk from `offset` on into the whole bytes that follow.  It
        has a meaning only where no access leaves the chunk or the bitmap. */
    method Execute(chunk: seq<int>, bitmap: array<bv8>, base: nat, offset: nat) returns (status: Status)
      requires InBounds(|chunk|, base, offset, bitmap.Length)
      modifies bitmap
      ensures status == if isCompiled then Finished else KernelNotCompiled
      ensures isCompiled ==> Bits(bitmap[..]) == Filtered(old(Bits(bitmap[..])),
        8 * (base + if offset != 0 then 1 else 0),
        Rows(matches, chunk[offset..])[..ToUInt64(|chunk| - offset) / 8 * 8])
      ensures !isCompiled ==> bitmap[..] == old(bitmap[..])
    {
      if !isCompiled {
        return KernelNotCompiled;
      }
      FilterFunc(chunk[offset..], ToUInt64(|chunk| - offset), bitmap, base + if offset != 0 then 1 else 0);
      return Finished;
    }

    /** Filters the first or last few rows of a chunk, within one byte. */
    method ExecuteRemaining(chunk: seq<int>, bitmap: array<bv8>, base: nat, arrayOffset: nat, bitOffset: nat)
      returns (status: Status)
      requires arrayOffset <= |chunk| && base < bitmap.Length
      requires bitOffset + RemainingLength(|chunk|, arrayOffset, bitOffset) <= 8
      modifies bitmap
      ensures status == if isCompiled then Finished else KernelNotCompiled
      ensures isCompiled ==> Bits(bitmap[..]) == Filtered(old(Bits(bitmap[..])), 8 * base + bitOffset,
        Rows(matches, chunk[arrayOffset..arrayOffset + RemainingLength(|chunk|, arrayOffset, bitOffset)]))
      ensures !isCompiled ==> bitmap[..] == old(bitmap[..])
    {
      if !isCompiled {
        return KernelNotCompiled;
      }
      var len := 0;
      if arrayOffset == 0 {
        var room, rest := ToUInt8(8 - bitOffset), ToUInt8(|chunk| - arrayOffset);
        len := if rest < room then rest else room;
      } else {
        len := ToUInt8(|chunk| - arrayOffset);
      }
      FilterRemainingFunc(chunk[arrayOffset..arrayOffset + len], bitmap, base, bitOffset);
      return Finished;
    }
  }
}
