/** How a chunked column lies over the bytes of its bitmap, and what the calls of the
    filter kernels cover.  A layout is the list of chunk lengths. */
module Layout {
  import opened Bitmaps

  type Lengths = seq<nat>

  /** The row at which chunk c starts. */
  function Start(lens: Lengths, c: nat): nat
    requires c <= |lens|
  {
    if c == 0 then 0 else Start(lens, c - 1) + lens[c - 1]
  }

  function Total(lens: Lengths): nat {
    Start(lens, |lens|)
  }

  lemma {:induction false} StartMonotone(lens: Lengths, c: nat, d: nat)
    requires c <= d <= |lens|
    ensures Start(lens, c) <= Start(lens, d)
  {
    if c < d {
      StartMonotone(lens, c, d - 1);
    }
  }

  /** Rows a chunk starting at row o contributes to a byte that began before it. */
  function Lead(o: nat): nat {
    if o % 8 == 0 then 0 else 8 - o % 8
  }

  /** The first byte boundary not before row o. */
  function RoundedUp(o: nat): nat {
    o + Lead(o)
  }

  /** The last byte boundary not after row e. */
  function RoundedDown(e: nat): nat {
    e - e % 8
  }

  /** The driver's way of computing Lead. */
  lemma LeadFormula(o: nat)
    ensures (8 - o % 8) % 8 == Lead(o)
  {
  }

  /** The whole bytes of a chunk end where its last, partial byte begins. */
  lemma WholeBytesEnd(o: nat, len: nat)
    requires Lead(o) <= len
    ensures RoundedUp(o) + (len - Lead(o)) / 8 * 8 == RoundedDown(o + len)
  {
    var q, m, s := RoundedUp(o) / 8, (len - Lead(o)) / 8, (len - Lead(o)) % 8;
    assert RoundedUp(o) % 8 == 0;
    assert o + len == 8 * (q + m) + s;
  }

  /** Chunk c reaches the end of the byte it starts in, as the unsigned length
      computations of the kernel require. */
  predicate SafeAt(lens: Lengths, c: nat)
    requires c < |lens|
  {
    Lead(Start(lens, c)) <= lens[c]
  }

  predicate Safe(lens: Lengths) {
    forall c | 0 <= c < |lens| :: SafeAt(lens, c)
  }

  /** Chunk c still does so when its length has been narrowed to eight bits. */
  predicate AdmissibleAt(lens: Lengths, c: nat)
    requires c < |lens|
  {
    Lead(Start(lens, c)) <= lens[c] % 256
  }

  predicate Admissible(lens: Lengths) {
    forall c | 0 <= c < |lens| :: AdmissibleAt(lens, c)
  }

  lemma AdmissibleIsSafe(lens: Lengths)
    requires Admissible(lens)
    ensures Safe(lens)
  {
    forall c | 0 <= c < |lens|
      ensures SafeAt(lens, c)
    {
      assert AdmissibleAt(lens, c);
    }
  }

  /** Row k is a leading row of chunk c beyond the narrowed length: no call filters it. */
  predicate Skips(lens: Lengths, c: nat, k: nat)
    requires c < |lens|
  {
    Start(lens, c) + lens[c] % 256 <= k < Start(lens, c) + Lead(Start(lens, c))
  }

  predicate SkippedBelow(lens: Lengths, upto: nat, k: nat)
    requires upto <= |lens|
  {
    exists c | 0 <= c < upto :: Skips(lens, c, k)
  }

  predicate Skipped(lens: Lengths, k: nat) {
    SkippedBelow(lens, |lens|, k)
  }

  /** A safe layout skips no row exactly when it is admissible. */
  lemma NothingSkippedIff(lens: Lengths)
    requires Safe(lens)
    ensures Admissible(lens) <==> forall k | 0 <= k < Total(lens) :: !Skipped(lens, k)
  {
    if !Admissible(lens) {
      var c :| 0 <= c < |lens| && !AdmissibleAt(lens, c);
      var k := Start(lens, c) + lens[c] % 256;
      StartMonotone(lens, c + 1, |lens|);
      assert SafeAt(lens, c);
      assert Skips(lens, c, k);
      assert Skipped(lens, k);
    } else {
      forall k | 0 <= k < Total(lens)
        ensures !Skipped(lens, k)
      {
        assert forall c | 0 <= c < |lens| :: AdmissibleAt(lens, c) ==> !Skips(lens, c, k);
      }
    }
  }

  // ----- kernel calls as row ranges -----

  /** A kernel call ANDs the predicate of rows first .. first+len-1 into the bitmap. */
  datatype Call = Call(first: nat, len: nat)

  predicate Covers(call: Call, k: nat) {
    call.first <= k < call.first + call.len
  }

  /** The call of `execute` for a chunk of len rows from row o on. */
  function WholeBytesCall(o: nat, len: nat): Call
    requires Lead(o) <= len
  {
    Call(RoundedUp(o), (len - Lead(o)) / 8 * 8)
  }

  /** The call of `execute_remaining` at its beginning, if one is made: the length is
      narrowed to eight bits before the minimum is taken. */
  function LeadCall(o: nat, len: nat): seq<Call> {
    if o % 8 != 0 then [Call(o, if len % 256 < 8 - o % 8 then len % 256 else 8 - o % 8)] else []
  }

  /** The call of `execute_remaining` at its end, row e, if one is made. */
  function TrailCall(e: nat): seq<Call> {
    if e % 8 != 0 then [Call(RoundedDown(e), e % 8)] else []
  }

  function ByteCall(lens: Lengths, c: nat): Call
    requires c < |lens| && SafeAt(lens, c)
  {
    WholeBytesCall(Start(lens, c), lens[c])
  }

  /** `execute` covers the whole bytes of its chunk. */
  lemma ByteCallRange(lens: Lengths, c: nat)
    requires c < |lens| && SafeAt(lens, c)
    ensures ByteCall(lens, c).first == RoundedUp(Start(lens, c))
    ensures ByteCall(lens, c).first + ByteCall(lens, c).len == RoundedDown(Start(lens, c + 1))
  {
    WholeBytesEnd(Start(lens, c), lens[c]);
  }

  function LeadCalls(lens: Lengths, c: nat): seq<Call>
    requires c < |lens|
  {
    LeadCall(Start(lens, c), lens[c])
  }

  function TrailCalls(lens: Lengths, c: nat): seq<Call>
    requires c < |lens|
  {
    TrailCall(Start(lens, c + 1))
  }

  /** The calls of the first pass over chunks 0 .. c-1. */
  function ByteCalls(lens: Lengths, c: nat): seq<Call>
    requires c <= |lens| && Safe(lens)
  {
    if c == 0 then [] else ByteCalls(lens, c - 1) + [ByteCall(lens, c - 1)]
  }

  /** The calls of the second pass over chunks 0 .. c-1. */
  function EdgeCalls(lens: Lengths, c: nat): seq<Call>
    requires c <= |lens|
  {
    if c == 0 then [] else EdgeCalls(lens, c - 1) + LeadCalls(lens, c - 1) + TrailCalls(lens, c - 1)
  }

  function AllCalls(lens: Lengths): seq<Call>
    requires Safe(lens)
  {
    ByteCalls(lens, |lens|) + EdgeCalls(lens, |lens|)
  }

  /** How many of the calls cover row k. */
  function CoverCount(calls: seq<Call>, k: nat): nat {
    if calls == [] then 0
    else CoverCount(calls[..|calls| - 1], k) + (if Covers(calls[|calls| - 1], k) then 1 else 0)
  }

  lemma {:induction false} CoverCountAppend(a: seq<Call>, b: seq<Call>, k: nat)
    ensures CoverCount(a + b, k) == CoverCount(a, k) + CoverCount(b, k)
  {
    if b == [] {
      assert a + b == a;
    } else {
      assert (a + b)[..|a + b| - 1] == a + b[..|b| - 1];
      CoverCountAppend(a, b[..|b| - 1], k);
    }
  }

  lemma {:induction false} CoverCountPositive(calls: seq<Call>, k: nat)
    ensures CoverCount(calls, k) > 0 <==> exists call | call in calls :: Covers(call, k)
  {
    if calls != [] {
      var last := |calls| - 1;
      CoverCountPositive(calls[..last], k);
      assert calls == calls[..last] + [calls[last]];
    }
  }

  /** The calls made for one chunk cover its rows once, except those it skips. */
  lemma ChunkCoveredOnce(lens: Lengths, c: nat, k: nat)
    requires c < |lens| && SafeAt(lens, c)
    ensures CoverCount([ByteCall(lens, c)], k)
          + CoverCount(LeadCalls(lens, c), k) + CoverCount(TrailCalls(lens, c), k)
         == if Start(lens, c) <= k < Start(lens, c + 1) && !Skips(lens, c, k) then 1 else 0
  {
    var o, e := Start(lens, c), Start(lens, c + 1);
    var a, b, narrow := RoundedUp(o), RoundedDown(e), o + lens[c] % 256;
    ByteCoverCount(lens, c, k);
    LeadCoverCount(lens, c, k);
    TrailCoverCount(lens, c, k);
    ThreePieces(o, a, b, e, narrow, k);
  }

  lemma ByteCoverCount(lens: Lengths, c: nat, k: nat)
    requires c < |lens| && SafeAt(lens, c)
    ensures var o, e := Start(lens, c), Start(lens, c + 1);
      && o <= RoundedUp(o) <= RoundedDown(e) <= e
      && CoverCount([ByteCall(lens, c)], k) == if RoundedUp(o) <= k < RoundedDown(e) then 1 else 0
  {
    ByteCallRange(lens, c);
    CoverCountSingle(ByteCall(lens, c), k);
  }

  lemma ThreePieces(o: nat, a: nat, b: nat, e: nat, narrow: nat, k: nat)
    requires o <= a <= b <= e && o <= narrow <= e
    ensures (if a <= k < b then 1 else 0) + (if o <= k < a && k < narrow then 1 else 0) + (if b <= k < e then 1 else 0)
         == if o <= k < e && !(narrow <= k < a) then 1 else 0
  {
  }

  lemma CoverCountSingle(call: Call, k: nat)
    ensures CoverCount([call], k) == if Covers(call, k) then 1 else 0
  {
    assert [call][..0] == [];
  }

  lemma LeadCoverCount(lens: Lengths, c: nat, k: nat)
    requires c < |lens|
    ensures var o := Start(lens, c);
      CoverCount(LeadCalls(lens, c), k) == if o <= k < RoundedUp(o) && k < o + lens[c] % 256 then 1 else 0
  {
    if LeadCalls(lens, c) != [] {
      CoverCountSingle(LeadCalls(lens, c)[0], k);
    }
  }

  lemma TrailCoverCount(lens: Lengths, c: nat, k: nat)
    requires c < |lens|
    ensures var e := Start(lens, c + 1);
      CoverCount(TrailCalls(lens, c), k) == if RoundedDown(e) <= k < e then 1 else 0
  {
    if TrailCalls(lens, c) != [] {
      CoverCountSingle(TrailCalls(lens, c)[0], k);
    }
  }

  lemma {:induction false} CoveredOnceBelow(lens: Lengths, upto: nat, k: nat)
    requires upto <= |lens| && Safe(lens)
    ensures CoverCount(ByteCalls(lens, upto), k) + CoverCount(EdgeCalls(lens, upto), k)
         == if k < Start(lens, upto) && !SkippedBelow(lens, upto, k) then 1 else 0
  {
    if upto > 0 {
      var c := upto - 1;
      CoveredOnceBelow(lens, c, k);
      ChunkCoveredOnce(lens, c, k);
      CountUpToNextChunk(lens, c, k);
      SkippedBelowStep(lens, c, k);
    }
  }

  lemma CountUpToNextChunk(lens: Lengths, c: nat, k: nat)
    requires c < |lens| && Safe(lens)
    ensures CoverCount(ByteCalls(lens, c + 1), k)
         == CoverCount(ByteCalls(lens, c), k) + CoverCount([ByteCall(lens, c)], k)
    ensures CoverCount(EdgeCalls(lens, c + 1), k)
         == CoverCount(EdgeCalls(lens, c), k) + CoverCount(LeadCalls(lens, c), k) + CoverCount(TrailCalls(lens, c), k)
  {
    CoverCountAppend(ByteCalls(lens, c), [ByteCall(lens, c)], k);
    CoverCountAppend(EdgeCalls(lens, c) + LeadCalls(lens, c), TrailCalls(lens, c), k);
    CoverCountAppend(EdgeCalls(lens, c), LeadCalls(lens, c), k);
  }

  lemma SkippedBelowStep(lens: Lengths, c: nat, k: nat)
    requires c < |lens| && Safe(lens)
    ensures SkippedBelow(lens, c + 1, k) <==> SkippedBelow(lens, c, k) || Skips(lens, c, k)
    ensures SkippedBelow(lens, c, k) ==> k < Start(lens, c)
    ensures Skips(lens, c, k) ==> Start(lens, c) <= k < Start(lens, c + 1)
  {
    if SkippedBelow(lens, c, k) {
      var d :| 0 <= d < c && Skips(lens, d, k);
      SkipsInsideChunk(lens, d, k);
      StartMonotone(lens, d + 1, c);
    }
    SkipsInsideChunk(lens, c, k);
  }

  lemma SkipsInsideChunk(lens: Lengths, c: nat, k: nat)
    requires c < |lens| && SafeAt(lens, c)
    ensures Skips(lens, c, k) ==> Start(lens, c) <= k < Start(lens, c + 1)
  {
  }

  /** Together the calls of both passes cover every row exactly once, except skipped
      rows, which no call covers; and they cover nothing beyond the last row. */
  lemma CallsPartitionRows(lens: Lengths, k: nat)
    requires Safe(lens)
    ensures CoverCount(AllCalls(lens), k) == if k < Total(lens) && !Skipped(lens, k) then 1 else 0
  {
    CoverCountAppend(ByteCalls(lens, |lens|), EdgeCalls(lens, |lens|), k);
    CoveredOnceBelow(lens, |lens|, k);
  }

  // ----- which bytes the calls write -----

  /** The bytes written by `execute` for two different chunks are disjoint. */
  lemma ByteKernelsWriteDisjointBytes(lens: Lengths, c: nat, d: nat)
    requires c < d < |lens| && Safe(lens)
    ensures ByteCall(lens, c).first + ByteCall(lens, c).len <= ByteCall(lens, d).first
  {
    StartMonotone(lens, c + 1, d);
    ByteCallRange(lens, c);
    ByteCallRange(lens, d);
    DownBeforeUp(Start(lens, c + 1), Start(lens, d));
  }

  lemma DownBeforeUp(e: nat, o: nat)
    requires e <= o
    ensures RoundedDown(e) <= RoundedUp(o)
  {
  }

  /** `execute_remaining` writes only the one byte that a chunk boundary cuts, and no
      call of `execute` writes that byte. */
  lemma EdgesAvoidByteKernels(lens: Lengths, c: nat, d: nat, edge: Call)
    requires c < |lens| && d < |lens| && Safe(lens)
    requires edge in LeadCalls(lens, d) || edge in TrailCalls(lens, d)
    ensures edge.first % 8 + edge.len <= 8
    ensures var kernel := ByteCall(lens, c);
      !(kernel.first / 8 <= edge.first / 8 < (kernel.first + kernel.len) / 8)
  {
    EdgeInCutByte(lens, d, edge);
    var j := if edge.first / 8 == Start(lens, d) / 8 && Start(lens, d) % 8 != 0 then d else d + 1;
    CutByte(lens, c, j);
    ByteCallRange(lens, c);
  }

  lemma LeadInCutByte(o: nat, len: nat, edge: Call)
    requires edge in LeadCall(o, len)
    ensures o % 8 != 0 && edge.first / 8 == o / 8 && edge.first % 8 + edge.len <= 8
  {
    assert edge == LeadCall(o, len)[0];
  }

  lemma TrailInCutByte(e: nat, edge: Call)
    requires edge in TrailCall(e)
    ensures e % 8 != 0 && edge.first / 8 == e / 8 && edge.first % 8 + edge.len <= 8
  {
    assert edge == TrailCall(e)[0];
    assert RoundedDown(e) == 8 * (e / 8);
  }

  lemma EdgeInCutByte(lens: Lengths, d: nat, edge: Call)
    requires d < |lens|
    requires edge in LeadCalls(lens, d) || edge in TrailCalls(lens, d)
    ensures edge.first % 8 + edge.len <= 8
    ensures || (Start(lens, d) % 8 != 0 && edge.first / 8 == Start(lens, d) / 8)
            || (Start(lens, d + 1) % 8 != 0 && edge.first / 8 == Start(lens, d + 1) / 8)
  {
    if edge in LeadCalls(lens, d) {
      LeadInCutByte(Start(lens, d), lens[d], edge);
    } else {
      TrailInCutByte(Start(lens, d + 1), edge);
    }
  }

  /** A byte cut by a chunk boundary is no whole byte of any chunk. */
  lemma CutByte(lens: Lengths, c: nat, j: nat)
    requires c < |lens| && j <= |lens| && Start(lens, j) % 8 != 0
    ensures !(RoundedUp(Start(lens, c)) / 8 <= Start(lens, j) / 8 < RoundedDown(Start(lens, c + 1)) / 8)
  {
    if j <= c {
      StartMonotone(lens, j, c);
      CutBefore(Start(lens, j), Start(lens, c));
    } else {
      StartMonotone(lens, c + 1, j);
    }
  }

  lemma CutBefore(boundary: nat, o: nat)
    requires boundary % 8 != 0 && boundary <= o
    ensures boundary / 8 < RoundedUp(o) / 8
  {
  }

  // ----- the effect of calls on a bitmap -----

  /** One call: the covered bits are ANDed with the rows' truth values. */
  function ApplyCall(bits: seq<bool>, truth: seq<bool>, call: Call): (r: seq<bool>)
    ensures |r| == |bits|
  {
    seq(|bits|, k requires 0 <= k < |bits| => bits[k] && (Covers(call, k) && k < |truth| ==> truth[k]))
  }

  function ApplyAll(bits: seq<bool>, truth: seq<bool>, calls: seq<Call>): (r: seq<bool>)
    ensures |r| == |bits|
  {
    if calls == [] then bits
    else ApplyCall(ApplyAll(bits, truth, calls[..|calls| - 1]), truth, calls[|calls| - 1])
  }

  lemma {:induction false} ApplyAllBit(bits: seq<bool>, truth: seq<bool>, calls: seq<Call>, k: nat)
    requires k < |bits|
    ensures ApplyAll(bits, truth, calls)[k]
         == (bits[k] && (CoverCount(calls, k) > 0 && k < |truth| ==> truth[k]))
  {
    if calls != [] {
      ApplyAllBit(bits, truth, calls[..|calls| - 1], k);
    }
  }

  function Ones(n: nat): seq<bool> {
    seq(n, _ => true)
  }

  /** The bitmap both passes produce: each row's truth value, a one for every skipped
      row, and ones as padding up to the end of the last byte. */
  function KernelBits(lens: Lengths, truth: seq<bool>): (bits: seq<bool>)
    requires |truth| == Total(lens)
    ensures |bits| == 8 * BytesFor(|truth|)
  {
    seq(8 * BytesFor(|truth|), k requires 0 <= k => k < |truth| ==> truth[k] || Skipped(lens, k))
  }

  lemma PassesProduceKernelBits(lens: Lengths, truth: seq<bool>)
    requires Safe(lens) && |truth| == Total(lens)
    ensures ApplyAll(Ones(8 * BytesFor(|truth|)), truth, AllCalls(lens)) == KernelBits(lens, truth)
  {
    AnyOrderOfCalls(lens, truth, AllCalls(lens));
  }

  /** The calls may be made in any order: each permutation of them, made one after the
      other, produces the same bitmap. */
  lemma AnyOrderOfCalls(lens: Lengths, truth: seq<bool>, calls: seq<Call>)
    requires Safe(lens) && |truth| == Total(lens)
    requires multiset(calls) == multiset(AllCalls(lens))
    ensures ApplyAll(Ones(8 * BytesFor(|truth|)), truth, calls) == KernelBits(lens, truth)
  {
    var ones := Ones(8 * BytesFor(|truth|));
    forall k | 0 <= k < |ones|
      ensures ApplyAll(ones, truth, calls)[k] == KernelBits(lens, truth)[k]
    {
      ApplyAllBit(ones, truth, calls, k);
      SameCoverage(calls, AllCalls(lens), k);
      CallsPartitionRows(lens, k);
    }
  }

  lemma SameCoverage(a: seq<Call>, b: seq<Call>, k: nat)
    requires multiset(a) == multiset(b)
    ensures CoverCount(a, k) > 0 <==> CoverCount(b, k) > 0
  {
    CoverCountPositive(a, k);
    CoverCountPositive(b, k);
    assert forall call :: call in a <==> call in multiset(a);
    assert forall call :: call in b <==> call in multiset(b);
  }

  /** The bitmap reproduces every predicate's truth values exactly when the layout is
      admissible. */
  lemma KernelExactIff(lens: Lengths)
    requires Safe(lens)
    ensures Admissible(lens)
       <==> forall truth: seq<bool> | |truth| == Total(lens) :: KernelBits(lens, truth)[..|truth|] == truth
  {
    NothingSkippedIff(lens);
    if Admissible(lens) {
    } else {
      var k :| 0 <= k < Total(lens) && Skipped(lens, k);
      var never := seq(Total(lens), _ => false);
      assert KernelBits(lens, never)[..|never|][k] != never[k];
    }
  }

  /** One row followed by a chunk of 256: safe, yet seven rows go unfiltered. */
  lemma NarrowingExample()
    ensures Safe([1, 256]) && !Admissible([1, 256])
    ensures forall k: nat :: Skipped([1, 256], k) <==> 1 <= k < 8
  {
    var lens: Lengths := [1, 256];
    assert Start(lens, 0) == 0 && Start(lens, 1) == 1;
    assert SafeAt(lens, 0) && SafeAt(lens, 1) && !AdmissibleAt(lens, 1);
    forall k: nat
      ensures Skipped(lens, k) <==> 1 <= k < 8
    {
      assert !Skips(lens, 0, k);
      assert Skips(lens, 1, k) <==> 1 <= k < 8;
    }
  }
}
