/** Filter bitmaps: bytes whose most significant bit is the earliest row. */
module Bitmaps {

  /** Bit j of a byte, counted from the most significant. */
  predicate Bit(b: bv8, j: nat)
    requires j < 8
  {
    (b >> (7 - j)) & 1 == 1
  }

  function AsBit(v: bool): bv8 {
    if v then 1 else 0
  }

  lemma BitOfZero(k: nat)
    requires k < 8
    ensures !Bit(0, k) && Bit(255, k)
  {
  }

  lemma BitOfAnd(a: bv8, b: bv8, k: nat)
    requires k < 8
    ensures Bit(a & b, k) == (Bit(a, k) && Bit(b, k))
  {
    BitOfNot(a, k);
    BitOfNot(b, k);
    BitOfNot(a & b, k);
    BitOfOr(!a, !b, k);
    assert !(a & b) == !a | !b;
  }

  lemma BitOfNot(a: bv8, k: nat)
    requires k < 8
    ensures Bit(!a, k) == !Bit(a, k)
  {
  }

  lemma BitOfOr(a: bv8, b: bv8, k: nat)
    requires k < 8
    ensures Bit(a | b, k) == (Bit(a, k) || Bit(b, k))
  {
    // one shift distance at a time, with the distance written out
    if k == 0 {
      assert ((a | b) >> 7) & 1 == 1 <==> (a >> 7) & 1 == 1 || (b >> 7) & 1 == 1;
    } else if k == 1 {
      assert ((a | b) >> 6) & 1 == 1 <==> (a >> 6) & 1 == 1 || (b >> 6) & 1 == 1;
    } else if k == 2 {
      assert ((a | b) >> 5) & 1 == 1 <==> (a >> 5) & 1 == 1 || (b >> 5) & 1 == 1;
    } else if k == 3 {
      assert ((a | b) >> 4) & 1 == 1 <==> (a >> 4) & 1 == 1 || (b >> 4) & 1 == 1;
    } else if k == 4 {
      assert ((a | b) >> 3) & 1 == 1 <==> (a >> 3) & 1 == 1 || (b >> 3) & 1 == 1;
    } else if k == 5 {
      assert ((a | b) >> 2) & 1 == 1 <==> (a >> 2) & 1 == 1 || (b >> 2) & 1 == 1;
    } else if k == 6 {
      assert ((a | b) >> 1) & 1 == 1 <==> (a >> 1) & 1 == 1 || (b >> 1) & 1 == 1;
    } else {
      assert ((a | b) >> 0) & 1 == 1 <==> (a >> 0) & 1 == 1 || (b >> 0) & 1 == 1;
    }
  }

  /** bit << (7 - j) sets bit j and no other. */
  lemma BitOfShift(v: bool, j: nat, k: nat)
    requires j < 8 && k < 8
    ensures Bit(AsBit(v) << (7 - j), k) == (v && k == j)
  {
  }

  /** ~((~bit & 1) << (7 - j)) clears bit j when v is false, and nothing else. */
  lemma BitOfMask(v: bool, j: nat, k: nat)
    requires j < 8 && k < 8
    ensures Bit(!(((!AsBit(v)) & 1) << (7 - j)), k) == (v || k != j)
  {
  }

  /** The bytes that hold n bits (arrow::AllocateBitmap). */
  function BytesFor(n: nat): nat {
    (n + 7) / 8
  }

  /** No fewer bits than asked for, and fewer than eight too many. */
  lemma BytesForBounds(n: nat)
    ensures n <= 8 * BytesFor(n) < n + 8
  {
  }

  /** A buffer read as bits, first row first. */
  function Bits(bytes: seq<bv8>): (bits: seq<bool>)
    ensures |bits| == 8 * |bytes|
  {
    seq(8 * |bytes|, k requires 0 <= k < 8 * |bytes| => Bit(bytes[k / 8], k % 8))
  }

  /** The bits with those from position `at` on ANDed with the given rows. */
  function Filtered(bits: seq<bool>, at: nat, rows: seq<bool>): (r: seq<bool>)
    ensures |r| == |bits|
  {
    seq(|bits|, k requires 0 <= k < |bits| => bits[k] && (at <= k < at + |rows| ==> rows[k - at]))
  }

  lemma FilteredAppend(bits: seq<bool>, at: nat, a: seq<bool>, b: seq<bool>)
    ensures Filtered(Filtered(bits, at, a), at + |a|, b) == Filtered(bits, at, a + b)
  {
  }

  /** Filtering sets no bit and leaves those beside the rows alone. */
  lemma FilteredWritten(bits: seq<bool>, at: nat, rows: seq<bool>, k: nat)
    requires k < |bits|
    ensures Filtered(bits, at, rows)[k] ==> bits[k]
    ensures k < at || k >= at + |rows| ==> Filtered(bits, at, rows)[k] == bits[k]
    ensures at <= k < at + |rows| ==> (Filtered(bits, at, rows)[k] <==> bits[k] && rows[k - at])
  {
  }

  lemma FilteredByNothing(bits: seq<bool>, at: nat)
    ensures Filtered(bits, at, []) == bits
  {
  }

  /** What ANDing one byte does to a bit: of that byte, the mask decides. */
  lemma AndByteBit(bytes: seq<bv8>, b: nat, mask: bv8, i: nat, j: nat)
    requires b < |bytes| && i < |bytes| && j < 8
    ensures Bit(bytes[b := bytes[b] & mask][i], j) == (Bit(bytes[i], j) && (i == b ==> Bit(mask, j)))
  {
    if i == b {
      BitOfAnd(bytes[b], mask, j);
    }
  }

  /** ANDing one byte in place filters the rows of that byte by what was ANDed. */
  lemma AndByteFilters(bytes: seq<bv8>, b: nat, mask: bv8, at: nat, rows: seq<bool>)
    requires b < |bytes|
    requires 8 * b <= at && at + |rows| <= 8 * b + 8
    requires forall j: nat | j < 8 ::
      Bit(mask, j) == (at <= 8 * b + j < at + |rows| ==> rows[8 * b + j - at])
    ensures Bits(bytes[b := bytes[b] & mask]) == Filtered(Bits(bytes), at, rows)
  {
    var after := bytes[b := bytes[b] & mask];
    forall k | 0 <= k < 8 * |bytes|
      ensures Bits(after)[k] == Filtered(Bits(bytes), at, rows)[k]
    {
      var i, j := k / 8, k % 8;
      AndByteBit(bytes, b, mask, i, j);
      assert i == b || !(at <= k < at + |rows|);
      assert i == b ==> k == 8 * b + j;
    }
  }

  lemma AndByteFiltersAll(bytes: seq<bv8>, b: nat, mask: bv8, rows: seq<bool>)
    requires b < |bytes| && |rows| == 8
    requires forall j: nat | j < 8 :: Bit(mask, j) == rows[j]
    ensures Bits(bytes[b := bytes[b] & mask]) == Filtered(Bits(bytes), 8 * b, rows)
  {
    AndByteFilters(bytes, b, mask, 8 * b, rows);
  }
}
