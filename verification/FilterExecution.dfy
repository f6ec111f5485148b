/** Bitmap generation of pefa/execution/execution.cpp: what the bitmap of an expression is,
    and the two passes of kernel calls over a chunked column. */
module FilterExecution {
  import opened FixedWidth
  import opened Expressions
  import opened Bitmaps
  import opened Layout
  import opened Tables
  import opened FilterKernels

  // ----- names -----

  /** Exactly one field has this name (arrow::Schema::GetFieldByName finds no other). */
  predicate HasField(fields: seq<Field>, name: string) {
    exists i | 0 <= i < |fields| ::
      && fields[i].name == name
      && forall j | 0 <= j < |fields| :: fields[j].name == name ==> j == i
  }

  function FieldIndex(fields: seq<Field>, name: string): (i: nat)
    requires HasField(fields, name)
    ensures i < |fields| && fields[i].name == name
    ensures forall j | 0 <= j < |fields| :: fields[j].name == name ==> j == i
  {
    var i :| 0 <= i < |fields| && fields[i].name == name;
    i
  }

  function Schema(t: Table): (fields: seq<Field>)
    ensures |fields| == |t.columns|
  {
    seq(|t.columns|, i requires 0 <= i < |t.columns| => t.columns[i].field)
  }

  function ColumnNamed(t: Table, name: string): (c: Column)
    requires HasField(Schema(t), name)
    ensures c in t.columns && c.field.name == name
  {
    t.columns[FieldIndex(Schema(t), name)]
  }

  /** arrow::Table::num_rows: the length of the first column, or no rows without one. */
  function NumRows(t: Table): nat {
    if t.columns == [] then 0 else |Flatten(t.columns[0].chunks)|
  }

  // ----- what the executor may be given, and what it computes -----

  /** A column as long as the table, small enough for the cursors. */
  predicate Fits(chunks: seq<seq<int>>, n: nat) {
    |Flatten(chunks)| == n < 0x8000_0000 && |chunks| < 0x8000_0000
  }

  /** `execute` stays inside when it is called for chunk c as the driver does. */
  predicate StaysInside(lens: Lengths, c: nat)
    requires c < |lens|
  {
    var o := Start(lens, c);
    InBounds(lens[c], o / 8, (8 - o % 8) % 8, BytesFor(Total(lens)))
  }

  predicate KernelsStayInside(lens: Lengths) {
    forall c | 0 <= c < |lens| :: StaysInside(lens, c)
  }

  /** The columns an expression compares exist and can be filtered. */
  predicate Filterable(t: Table, e: BooleanExpr) {
    match e
    case Compare(name, _, _) =>
      && HasField(Schema(t), name)
      && Fits(ColumnNamed(t, name).chunks, NumRows(t))
      && KernelsStayInside(Lens(ColumnNamed(t, name).chunks))
    case Predicate(l, r, _) => Filterable(t, l) && Filterable(t, r)
  }

  /** The truth values of an expression over one column, row by row. */
  function Truths(e: BooleanExpr, t: DataType, values: seq<int>): (r: seq<bool>)
    ensures |r| == |values|
  {
    seq(|values|, i requires 0 <= i < |values| => MatchesPattern(e, t, Pattern(t, values[i])))
  }

  lemma PredicateRows(p: int -> bool, e: BooleanExpr, t: DataType, values: seq<int>)
    requires forall v :: p(v) == MatchesPattern(e, t, Pattern(t, v))
    ensures Rows(p, values) == Truths(e, t, values)
  {
  }

  function JoinBits(op: PredicateOp, a: seq<bool>, b: seq<bool>): (r: seq<bool>)
    requires |a| == |b|
    ensures |r| == |a|
  {
    seq(|a|, k requires 0 <= k < |a| => Join(op, a[k], b[k]))
  }

  /** The bitmap of an expression on a table. */
  function TreeBits(t: Table, e: BooleanExpr): (bits: seq<bool>)
    requires Filterable(t, e)
    ensures |bits| == 8 * BytesFor(NumRows(t))
  {
    match e
    case Compare(name, _, _) =>
      var column := ColumnNamed(t, name);
      FlattenLength(column.chunks);
      KernelBits(Lens(column.chunks), Truths(e, column.field.t, Flatten(column.chunks)))
    case Predicate(l, r, op) => JoinBits(op, TreeBits(t, l), TreeBits(t, r))
  }

  /** The bits of joined expressions are the bits of both sides, joined. */
  lemma JoinedBits(t: Table, l: BooleanExpr, r: BooleanExpr, k: nat)
    requires Filterable(t, l) && Filterable(t, r) && k < 8 * BytesFor(NumRows(t))
    ensures TreeBits(t, Predicate(l, r, AND))[k] <==> TreeBits(t, l)[k] && TreeBits(t, r)[k]
    ensures TreeBits(t, Predicate(l, r, OR))[k] <==> TreeBits(t, l)[k] || TreeBits(t, r)[k]
  {
  }

  lemma {:induction false} OneColumnFilterable(t: Table, e: BooleanExpr, name: string)
    requires OverColumn(e, name) && Filterable(t, e)
    ensures HasField(Schema(t), name)
    ensures var chunks := ColumnNamed(t, name).chunks; Fits(chunks, NumRows(t)) && KernelsStayInside(Lens(chunks))
  {
    if e.Predicate? {
      OneColumnFilterable(t, e.lhs, name);
    }
  }

  /** A compound expression over one column gives the same bitmap whether its comparisons
      are filtered one by one and joined, or both passes run once with the whole
      expression compiled into one predicate. */
  lemma {:induction false} RoutesAgree(t: Table, e: BooleanExpr, name: string)
    requires OverColumn(e, name) && Filterable(t, e)
    ensures HasField(Schema(t), name)
    ensures var c := ColumnNamed(t, name);
      && |Flatten(c.chunks)| == Total(Lens(c.chunks))
      && TreeBits(t, e) == KernelBits(Lens(c.chunks), Truths(e, c.field.t, Flatten(c.chunks)))
  {
    OneColumnFilterable(t, e, name);
    var c := ColumnNamed(t, name);
    FlattenLength(c.chunks);
    match e {
      case Compare(_, _, _) =>
      case Predicate(l, r, op) =>
        RoutesAgree(t, l, name);
        RoutesAgree(t, r, name);
        var lens, values := Lens(c.chunks), Flatten(c.chunks);
        assert JoinBits(op, KernelBits(lens, Truths(l, c.field.t, values)),
                        KernelBits(lens, Truths(r, c.field.t, values)))
            == KernelBits(lens, Truths(e, c.field.t, values));
    }
  }

  // ----- kernel calls as calls on the layout -----

  lemma FilteredIsCall(bits: seq<bool>, truth: seq<bool>, call: Call)
    requires call.first + call.len <= |truth|
    ensures Filtered(bits, call.first, truth[call.first..call.first + call.len]) == ApplyCall(bits, truth, call)
  {
  }

  lemma SliceOfSlice<T>(s: seq<T>, o: nat, len: nat, a: nat, b: nat)
    requires o + len <= |s| && a <= b <= len
    ensures s[o..o + len][a..b] == s[o + a..o + b]
  {
    var part := s[o..o + len];
    assert forall i | 0 <= i < b - a :: part[a..b][i] == part[a + i] == s[o + (a + i)];
  }

  /** The rows of a chunk, as part of the whole column's truth values. */
  ghost predicate ChunkAt(truth: seq<bool>, o: nat, rows: seq<bool>) {
    o + |rows| <= |truth| && truth[o..o + |rows|] == rows
  }

  lemma RowsOfChunk(p: int -> bool, chunks: seq<seq<int>>, c: nat)
    requires c < |chunks|
    ensures ChunkAt(Rows(p, Flatten(chunks)), Start(Lens(chunks), c), Rows(p, chunks[c]))
  {
    FlattenSlice(chunks, c);
    RowsSlice(p, Flatten(chunks), Start(Lens(chunks), c), Start(Lens(chunks), c + 1));
  }

  lemma ApplyAllOne(bits: seq<bool>, truth: seq<bool>, calls: seq<Call>, call: Call)
    ensures ApplyAll(bits, truth, calls + [call]) == ApplyCall(ApplyAll(bits, truth, calls), truth, call)
  {
    assert (calls + [call])[..|calls|] == calls;
  }

  lemma {:induction false} ApplyAllAppend(bits: seq<bool>, truth: seq<bool>, a: seq<Call>, b: seq<Call>)
    ensures ApplyAll(bits, truth, a + b) == ApplyAll(ApplyAll(bits, truth, a), truth, b)
  {
    if b == [] {
      assert a + b == a;
    } else {
      var last := |b| - 1;
      ApplyAllAppend(bits, truth, a, b[..last]);
      assert (a + b)[..|a + b| - 1] == a + b[..last];
    }
  }

  /** Filtering rows a to b of a chunk at their place is the call that covers them. */
  lemma PartIsCall(bits: seq<bool>, truth: seq<bool>, p: int -> bool, chunk: seq<int>, o: nat, a: nat, b: nat)
    requires a <= b <= |chunk| && ChunkAt(truth, o, Rows(p, chunk))
    ensures Filtered(bits, o + a, Rows(p, chunk[a..b])) == ApplyCall(bits, truth, Call(o + a, b - a))
    ensures Filtered(bits, o + a, Rows(p, chunk[a..b])) == ApplyAll(bits, truth, [Call(o + a, b - a)])
  {
    RowsSlice(p, chunk, a, b);
    SliceOfSlice(truth, o, |chunk|, a, b);
    FilteredIsCall(bits, truth, Call(o + a, b - a));
    ApplyAllOne(bits, truth, [], Call(o + a, b - a));
  }

  lemma FirstRows(p: int -> bool, chunk: seq<int>, r: nat, len: nat)
    requires r + len <= |chunk|
    ensures Rows(p, chunk[r..])[..len] == Rows(p, chunk[r..r + len])
  {
    RowsSlice(p, chunk[r..], 0, len);
    assert chunk[r..][0..len] == chunk[r..r + len];
  }

  lemma FirstRowsAreCall(bits: seq<bool>, truth: seq<bool>, p: int -> bool, chunk: seq<int>,
                         o: nat, r: nat, len: nat, at: nat)
    requires r + len <= |chunk| && ChunkAt(truth, o, Rows(p, chunk)) && at == o + r
    ensures Filtered(bits, at, Rows(p, chunk[r..])[..len]) == ApplyCall(bits, truth, Call(o + r, len))
  {
    FirstRows(p, chunk, r, len);
    PartIsCall(bits, truth, p, chunk, o, r, r + len);
  }

  // ----- the driver's offset arithmetic -----

  /** Where `execute` starts writing for a chunk, in bytes, and how long it is told the
      rest of the chunk is: it stays inside. */
  lemma SafeChunkStaysInside(o: nat, len: nat, n: nat)
    requires Lead(o) <= len && o + len <= n <= INT64_MAX
    ensures var r := (8 - o % 8) % 8;
      && r == Lead(o) && ToUInt64(len - r) == len - r
      && 8 * (o / 8 + if r != 0 then 1 else 0) == o + r
      && InBounds(len, o / 8, r, BytesFor(n))
      && WholeBytesCall(o, len) == Call(o + r, (len - r) / 8 * 8)
  {
    LeadFormula(o);
    WholeBytesEnd(o, len);
  }

  /** The length of a chunk that ends before the next byte boundary wraps, and the bytes
      that `execute` then writes go far beyond the bitmap. */
  lemma WrappedLengthLeavesBitmap(o: nat, len: nat, n: nat)
    requires len < Lead(o) && o + len <= n <= INT64_MAX
    ensures var r := (8 - o % 8) % 8;
      && r == Lead(o) && ToUInt64(len - r) == 0x1_0000_0000_0000_0000 - (r - len)
      && o / 8 + (if r != 0 then 1 else 0) + ToUInt64(len - r) / 8 > BytesFor(n)
  {
    LeadFormula(o);
  }

  lemma StaysInsideIff(lens: Lengths, c: nat)
    requires c < |lens| && Total(lens) <= INT64_MAX
    ensures StaysInside(lens, c) <==> SafeAt(lens, c)
  {
    StartMonotone(lens, c + 1, |lens|);
    if SafeAt(lens, c) {
      SafeChunkStaysInside(Start(lens, c), lens[c], Total(lens));
    } else {
      WrappedLengthLeavesBitmap(Start(lens, c), lens[c], Total(lens));
    }
  }

  /** The layouts on which every call of `execute` stays inside are the safe ones. */
  lemma KernelsStayInsideIff(lens: Lengths)
    requires Total(lens) <= INT64_MAX
    ensures KernelsStayInside(lens) <==> Safe(lens)
  {
    forall c | 0 <= c < |lens|
      ensures StaysInside(lens, c) <==> SafeAt(lens, c)
    {
      StaysInsideIff(lens, c);
    }
  }

  /** Chunks of 3 and 2 rows: the second one would have to reach row 8, its length wraps
      to 2^64 - 3, and `execute` writes beyond the one byte of the bitmap. */
  lemma WrapExample()
    ensures !StaysInside([3, 2], 1) && !KernelsStayInside([3, 2]) && !Safe([3, 2])
    ensures Total([3, 2]) == 5 && BytesFor(5) == 1
    ensures ToUInt64(2 - 5) == 0xffff_ffff_ffff_fffd
  {
    var lens: Lengths := [3, 2];
    assert Start(lens, 0) == 0 && Start(lens, 1) == 3 && Total(lens) == 5;
    assert !SafeAt(lens, 1);
    KernelsStayInsideIff(lens);
    WrappedLengthLeavesBitmap(3, 2, 5);
  }

  /** A chunk boundary inside a byte, as byte and bit. */
  lemma BoundaryInside(e: nat, n: nat)
    requires e <= n && e % 8 != 0
    ensures e / 8 < BytesFor(n)
    ensures 8 * (e / 8) + e % 8 == e
  {
  }

  /** The rows after a chunk's last whole byte belong to that chunk, also when they are
      all of its rows and the kernel takes the call for one at the beginning. */
  lemma TrailInChunk(o: nat, len: nat)
    requires Lead(o) <= len
    ensures (o + len) % 8 <= len
    ensures RemainingLength(len, len - (o + len) % 8, 0) == (o + len) % 8
  {
    WholeBytesEnd(o, len);
  }

  lemma LeadLength(o: nat, len: nat)
    requires o % 8 != 0
    ensures LeadCall(o, len) == [Call(o, RemainingLength(len, 0, o % 8))]
    ensures o % 8 + RemainingLength(len, 0, o % 8) <= 8
  {
  }

  // ----- the driver -----

  /** What the driver's call of `execute` filters is the call on the whole bytes. */
  lemma WholeBytesFiltered(bits: seq<bool>, truth: seq<bool>, p: int -> bool, chunk: seq<int>,
                           o: nat, base: nat, r: nat)
    requires Lead(o) <= |chunk| && ChunkAt(truth, o, Rows(p, chunk)) && |truth| <= INT64_MAX
    requires base == o / 8 && r == (8 - o % 8) % 8
    ensures InBounds(|chunk|, base, r, BytesFor(|truth|))
    ensures Filtered(bits, 8 * (base + if r != 0 then 1 else 0), Rows(p, chunk[r..])[..ToUInt64(|chunk| - r) / 8 * 8])
         == ApplyCall(bits, truth, WholeBytesCall(o, |chunk|))
  {
    SafeChunkStaysInside(o, |chunk|, |truth|);
    var whole, at := ToUInt64(|chunk| - r) / 8 * 8, 8 * (base + if r != 0 then 1 else 0);
    FirstRowsAreCall(bits, truth, p, chunk, o, r, whole, at);
  }

  /** What its calls of `execute_remaining` filter are the calls on the edges. */
  lemma LeadFiltered(bits: seq<bool>, truth: seq<bool>, p: int -> bool, chunk: seq<int>, o: nat, base: nat, bit: nat)
    requires o % 8 != 0 && ChunkAt(truth, o, Rows(p, chunk))
    requires base == o / 8 && bit == o % 8
    ensures base < BytesFor(|truth|) && bit + RemainingLength(|chunk|, 0, bit) <= 8
    ensures Filtered(bits, 8 * base + bit, Rows(p, chunk[0..0 + RemainingLength(|chunk|, 0, bit)]))
         == ApplyAll(bits, truth, LeadCall(o, |chunk|))
  {
    BoundaryInside(o, |truth|);
    LeadLength(o, |chunk|);
    PartIsCall(bits, truth, p, chunk, o, 0, RemainingLength(|chunk|, 0, bit));
  }

  lemma TrailFiltered(bits: seq<bool>, truth: seq<bool>, p: int -> bool, chunk: seq<int>, o: nat, e: nat,
                      base: nat, arrayOffset: int, bit: nat)
    requires Lead(o) <= |chunk| && ChunkAt(truth, o, Rows(p, chunk))
    requires e == o + |chunk| && e % 8 != 0
    requires base == e / 8 && arrayOffset == |chunk| - e % 8 && bit == 0
    ensures 0 <= arrayOffset && base < BytesFor(|truth|)
    ensures bit + RemainingLength(|chunk|, arrayOffset, bit) <= 8
    ensures Filtered(bits, 8 * base + bit,
                     Rows(p, chunk[arrayOffset..arrayOffset + RemainingLength(|chunk|, arrayOffset, bit)]))
         == ApplyAll(bits, truth, TrailCall(e))
  {
    BoundaryInside(e, |truth|);
    TrailInChunk(o, |chunk|);
    PartIsCall(bits, truth, p, chunk, o, arrayOffset, |chunk|);
  }

  /** The step of the first pass: the whole bytes of a chunk. */
  method ExecuteChunk(kernel: FilterKernel, chunk: seq<int>, offset: nat, buffer: array<bv8>,
                      ghost p: int -> bool, ghost truth: seq<bool>, ghost bits: seq<bool>)
    requires kernel.isCompiled && kernel.matches == p
    requires Lead(offset) <= |chunk| && ChunkAt(truth, offset, Rows(p, chunk)) && |truth| <= INT64_MAX
    requires buffer.Length == BytesFor(|truth|) && Bits(buffer[..]) == bits
    modifies buffer
    ensures Bits(buffer[..]) == ApplyCall(bits, truth, WholeBytesCall(offset, |chunk|))
  {
    // rows of a byte shared with the previous chunk are left to the second pass
    var prevBits := offset % 8;
    var remainingBits := (8 - prevBits) % 8;
    var base := offset / 8;
    WholeBytesFiltered(bits, truth, p, chunk, offset, base, remainingBits);
    var status := kernel.Execute(chunk, buffer, base, remainingBits);
  }

  /** The driver's inner loop: the row at which a chunk starts. */
  method ChunkOffset(chunks: seq<seq<int>>, chunkNum: CInt) returns (offset: nat)
    requires 0 <= chunkNum <= |chunks|
    ensures offset == Start(Lens(chunks), chunkNum)
  {
    offset := 0;
    var i: CInt := 0;
    while i < chunkNum
      invariant 0 <= i <= chunkNum
      invariant offset == Start(Lens(chunks), i)
    {
      offset := offset + |chunks[i]|;
      i := i + 1;
    }
  }

  lemma NextByteCall(bits: seq<bool>, truth: seq<bool>, lens: Lengths, c: nat)
    requires c < |lens| && Safe(lens)
    ensures SafeAt(lens, c)
    ensures ApplyAll(bits, truth, ByteCalls(lens, c + 1))
         == ApplyCall(ApplyAll(bits, truth, ByteCalls(lens, c)), truth, ByteCall(lens, c))
  {
    assert SafeAt(lens, c);
    ApplyAllOne(bits, truth, ByteCalls(lens, c), ByteCall(lens, c));
  }

  /** One iteration of the first pass. */
  method FirstPassStep(kernel: FilterKernel, chunks: seq<seq<int>>, chunkNum: CInt, buffer: array<bv8>,
                       ghost lens: Lengths, ghost p: int -> bool, ghost truth: seq<bool>, ghost bits: seq<bool>)
    requires kernel.isCompiled && kernel.matches == p
    requires lens == Lens(chunks) && truth == Rows(p, Flatten(chunks))
    requires 0 <= chunkNum < |chunks| && SafeAt(lens, chunkNum) && |truth| <= INT64_MAX
    requires buffer.Length == BytesFor(|truth|) && Bits(buffer[..]) == bits
    modifies buffer
    ensures Bits(buffer[..]) == ApplyCall(bits, truth, ByteCall(lens, chunkNum))
  {
    ghost var bytes := buffer[..];
    var offset := ChunkOffset(chunks, chunkNum);
    assert buffer[..] == bytes;
    RowsOfChunk(p, chunks, chunkNum);
    ExecuteChunk(kernel, chunks[chunkNum], offset, buffer, p, truth, bits);
  }

  /** The first pass: whole bytes of every chunk. */
  method FirstPass(kernel: FilterKernel, chunks: seq<seq<int>>, buffer: array<bv8>,
                   ghost lens: Lengths, ghost p: int -> bool, ghost truth: seq<bool>, ghost bits: seq<bool>)
    requires kernel.isCompiled && kernel.matches == p
    requires lens == Lens(chunks) && truth == Rows(p, Flatten(chunks))
    requires Safe(lens) && |chunks| < 0x8000_0000 && |truth| <= INT64_MAX
    requires buffer.Length == BytesFor(|truth|) && Bits(buffer[..]) == bits
    modifies buffer
    ensures Bits(buffer[..]) == ApplyAll(bits, truth, ByteCalls(lens, |lens|))
  {
    ghost var now := bits;
    var chunkNum: CInt := 0;
    while chunkNum < |chunks|
      invariant 0 <= chunkNum <= |chunks|
      invariant kernel.isCompiled && kernel.matches == p
      invariant now == ApplyAll(bits, truth, ByteCalls(lens, chunkNum))
      invariant Bits(buffer[..]) == now
    {
      NextByteCall(bits, truth, lens, chunkNum);
      FirstPassStep(kernel, chunks, chunkNum, buffer, lens, p, truth, now);
      now := ApplyCall(now, truth, ByteCall(lens, chunkNum));
      chunkNum := chunkNum + 1;
    }
  }

  /** The leading edge of a chunk that starts at a bit inside a byte. */
  method ExecuteCut(kernel: FilterKernel, chunk: seq<int>, base: nat, bit: nat, buffer: array<bv8>,
                    ghost o: nat, ghost p: int -> bool, ghost truth: seq<bool>, ghost bits: seq<bool>)
    requires kernel.isCompiled && kernel.matches == p
    requires o % 8 != 0 && base == o / 8 && bit == o % 8
    requires ChunkAt(truth, o, Rows(p, chunk))
    requires buffer.Length == BytesFor(|truth|) && Bits(buffer[..]) == bits
    modifies buffer
    ensures Bits(buffer[..]) == ApplyAll(bits, truth, LeadCall(o, |chunk|))
  {
    LeadFiltered(bits, truth, p, chunk, o, base, bit);
    var status := kernel.ExecuteRemaining(chunk, buffer, base, 0, bit);
  }

  /** In the second pass: the leading edge of a chunk, if it shares its first byte. */
  method ExecuteLead(kernel: FilterKernel, chunk: seq<int>, offset: nat, buffer: array<bv8>,
                     ghost p: int -> bool, ghost truth: seq<bool>, ghost bits: seq<bool>)
    requires kernel.isCompiled && kernel.matches == p
    requires ChunkAt(truth, offset, Rows(p, chunk))
    requires buffer.Length == BytesFor(|truth|) && Bits(buffer[..]) == bits
    modifies buffer
    ensures Bits(buffer[..]) == ApplyAll(bits, truth, LeadCall(offset, |chunk|))
  {
    if offset % 8 != 0 {
      ExecuteCut(kernel, chunk, offset / 8, offset % 8, buffer, offset, p, truth, bits);
    }
  }

  /** In the second pass: the trailing edge of a chunk, if it ends inside a byte. */
  method ExecuteTrail(kernel: FilterKernel, chunk: seq<int>, offset: nat, buffer: array<bv8>,
                      ghost o: nat, ghost p: int -> bool, ghost truth: seq<bool>, ghost bits: seq<bool>)
    requires kernel.isCompiled && kernel.matches == p
    requires offset == o + |chunk| && Lead(o) <= |chunk| && ChunkAt(truth, o, Rows(p, chunk))
    requires buffer.Length == BytesFor(|truth|) && Bits(buffer[..]) == bits
    modifies buffer
    ensures Bits(buffer[..]) == ApplyAll(bits, truth, TrailCall(offset))
  {
    if offset % 8 != 0 {
      var base, arrayOffset, bit := offset / 8, |chunk| - offset % 8, 0;
      TrailFiltered(bits, truth, p, chunk, o, offset, base, arrayOffset, bit);
      var status := kernel.ExecuteRemaining(chunk, buffer, base, arrayOffset, bit);
    }
  }

  /** The bitmap after the edge calls of chunks 0 .. c-1. */
  ghost function EdgeBits(bits: seq<bool>, truth: seq<bool>, lens: Lengths, c: nat): seq<bool>
    requires c <= |lens|
  {
    if c == 0 then bits
    else ApplyAll(ApplyAll(EdgeBits(bits, truth, lens, c - 1), truth, LeadCalls(lens, c - 1)),
                  truth, TrailCalls(lens, c - 1))
  }

  lemma ThreeApplied(bits: seq<bool>, truth: seq<bool>, a: seq<Call>, b: seq<Call>, c: seq<Call>)
    ensures ApplyAll(ApplyAll(ApplyAll(bits, truth, a), truth, b), truth, c) == ApplyAll(bits, truth, a + b + c)
  {
    ApplyAllAppend(bits, truth, a, b);
    ApplyAllAppend(bits, truth, a + b, c);
  }

  lemma {:induction false} EdgeCallsApplied(bits: seq<bool>, truth: seq<bool>, lens: Lengths, c: nat)
    requires c <= |lens|
    ensures EdgeBits(bits, truth, lens, c) == ApplyAll(bits, truth, EdgeCalls(lens, c))
  {
    if c == 0 {
      assert EdgeCalls(lens, c) == [];
    } else {
      var last := c - 1;
      var before, lead, trail := EdgeCalls(lens, last), LeadCalls(lens, last), TrailCalls(lens, last);
      EdgeCallsApplied(bits, truth, lens, last);
      ThreeApplied(bits, truth, before, lead, trail);
      assert EdgeCalls(lens, c) == before + lead + trail;
    }
  }

  /** One iteration of the second pass. */
  method SecondPassStep(kernel: FilterKernel, chunks: seq<seq<int>>, chunkNum: CInt, offset: nat, buffer: array<bv8>,
                        ghost lens: Lengths, ghost p: int -> bool, ghost truth: seq<bool>, ghost bits: seq<bool>)
    returns (next: nat)
    requires kernel.isCompiled && kernel.matches == p
    requires lens == Lens(chunks) && truth == Rows(p, Flatten(chunks))
    requires 0 <= chunkNum < |chunks| && Safe(lens) && offset == Start(lens, chunkNum)
    requires buffer.Length == BytesFor(|truth|)
    requires Bits(buffer[..]) == EdgeBits(bits, truth, lens, chunkNum)
    modifies buffer
    ensures next == Start(lens, chunkNum + 1)
    ensures Bits(buffer[..]) == EdgeBits(bits, truth, lens, chunkNum + 1)
  {
    assert SafeAt(lens, chunkNum);
    RowsOfChunk(p, chunks, chunkNum);
    ghost var before := EdgeBits(bits, truth, lens, chunkNum);
    ExecuteLead(kernel, chunks[chunkNum], offset, buffer, p, truth, before);
    next := offset + |chunks[chunkNum]|;
    ghost var now := ApplyAll(before, truth, LeadCalls(lens, chunkNum));
    ExecuteTrail(kernel, chunks[chunkNum], next, buffer, offset, p, truth, now);
  }

  /** The loop of the second pass. */
  method EdgePass(kernel: FilterKernel, chunks: seq<seq<int>>, buffer: array<bv8>,
                  ghost lens: Lengths, ghost p: int -> bool, ghost truth: seq<bool>, ghost bits: seq<bool>)
    requires kernel.isCompiled && kernel.matches == p
    requires lens == Lens(chunks) && truth == Rows(p, Flatten(chunks))
    requires Safe(lens) && |chunks| < 0x8000_0000
    requires buffer.Length == BytesFor(|truth|) && Bits(buffer[..]) == bits
    modifies buffer
    ensures Bits(buffer[..]) == EdgeBits(bits, truth, lens, |lens|)
  {
    var offset: nat := 0;
    var chunkNum: CInt := 0;
    while chunkNum < |chunks|
      invariant 0 <= chunkNum <= |chunks|
      invariant kernel.isCompiled && kernel.matches == p
      invariant offset == Start(lens, chunkNum)
      invariant Bits(buffer[..]) == EdgeBits(bits, truth, lens, chunkNum)
    {
      offset := SecondPassStep(kernel, chunks, chunkNum, offset, buffer, lens, p, truth, bits);
      chunkNum := chunkNum + 1;
    }
  }

  /** The second pass: the bytes that chunk boundaries cut. */
  method SecondPass(kernel: FilterKernel, chunks: seq<seq<int>>, buffer: array<bv8>,
                    ghost lens: Lengths, ghost p: int -> bool, ghost truth: seq<bool>, ghost bits: seq<bool>)
    requires kernel.isCompiled && kernel.matches == p
    requires lens == Lens(chunks) && truth == Rows(p, Flatten(chunks))
    requires Safe(lens) && |chunks| < 0x8000_0000
    requires buffer.Length == BytesFor(|truth|) && Bits(buffer[..]) == bits
    modifies buffer
    ensures Bits(buffer[..]) == ApplyAll(bits, truth, EdgeCalls(lens, |lens|))
  {
    EdgePass(kernel, chunks, buffer, lens, p, truth, bits);
    EdgeCallsApplied(bits, truth, lens, |lens|);
  }

  /** A fresh bitmap with every bit set. */
  method AllOnes(n: nat) returns (buffer: array<bv8>)
    ensures fresh(buffer) && buffer.Length == BytesFor(n)
    ensures Bits(buffer[..]) == Ones(8 * BytesFor(n))
  {
    buffer := new bv8[BytesFor(n)](_ => 255);
    forall k | 0 <= k < 8 * BytesFor(n)
      ensures Bits(buffer[..])[k]
    {
      BitOfZero(k % 8);
    }
  }

  /** Both passes with one compiled kernel over one column, into a fresh bitmap. */
  method FilterColumn(kernel: FilterKernel, chunks: seq<seq<int>>, numRows: nat) returns (buffer: array<bv8>)
    requires kernel.isCompiled
    requires KernelsStayInside(Lens(chunks)) && |chunks| < 0x8000_0000 && |Flatten(chunks)| == numRows <= INT64_MAX
    ensures fresh(buffer) && buffer.Length == BytesFor(numRows)
    ensures numRows <= 8 * buffer.Length < numRows + 8
    ensures Total(Lens(chunks)) == numRows
    ensures Bits(buffer[..]) == KernelBits(Lens(chunks), Rows(kernel.matches, Flatten(chunks)))
  {
    ghost var lens, p := Lens(chunks), kernel.matches;
    ghost var truth := Rows(p, Flatten(chunks));
    FlattenLength(chunks);
    KernelsStayInsideIff(lens);
    BytesForBounds(numRows);
    buffer := AllOnes(numRows);
    ghost var ones := Ones(8 * BytesFor(|truth|));
    FirstPass(kernel, chunks, buffer, lens, p, truth, ones);
    SecondPass(kernel, chunks, buffer, lens, p, truth, ApplyAll(ones, truth, ByteCalls(lens, |lens|)));
    ApplyAllAppend(ones, truth, ByteCalls(lens, |lens|), EdgeCalls(lens, |lens|));
    PassesProduceKernelBits(lens, truth);
  }
}
