/** Materialisation of a filtered column: the selected rows, packed into new chunks
    (materialize_column of pefa/execution/execution.cpp). */
module Compaction {
  import opened FixedWidth
  import opened Layout
  import opened Tables

  const CHUNK_SIZE: CInt := 16384

  // ----- selection -----

  /** The positions of the selected rows, in order. */
  function Positions(sel: seq<bool>): (ps: seq<nat>)
    ensures |ps| <= |sel|
    ensures forall i | 0 <= i < |ps| :: ps[i] < |sel|
  {
    if sel == [] then []
    else
      var last := |sel| - 1;
      Positions(sel[..last]) + (if sel[last] then [last] else [])
  }

  /** They are exactly the selected positions, each once, ascending. */
  lemma {:induction false} PositionsSound(sel: seq<bool>)
    ensures var ps := Positions(sel);
      && (forall i, j | 0 <= i < j < |ps| :: ps[i] < ps[j])
      && (forall k: nat :: k in ps <==> k < |sel| && sel[k])
  {
    if sel != [] {
      PositionsSound(sel[..|sel| - 1]);
    }
  }

  /** The selected rows, in order. */
  function Compact<T>(rows: seq<T>, sel: seq<bool>): seq<T>
    requires |rows| == |sel|
  {
    if rows == [] then []
    else
      var last := |rows| - 1;
      Compact(rows[..last], sel[..last]) + (if sel[last] then [rows[last]] else [])
  }

  lemma CompactAppend<T>(rows: seq<T>, sel: seq<bool>, x: T, chosen: bool)
    requires |rows| == |sel|
    ensures Compact(rows + [x], sel + [chosen]) == Compact(rows, sel) + (if chosen then [x] else [])
  {
    assert (sel + [chosen])[..|sel|] == sel;
    assert (rows + [x])[..|sel|] == rows;
  }

  lemma CompactStep<T>(rows: seq<T>, sel: seq<bool>, k: nat)
    requires |rows| == |sel| && k < |rows|
    ensures Compact(rows[..k + 1], sel[..k + 1])
         == Compact(rows[..k], sel[..k]) + (if sel[k] then [rows[k]] else [])
  {
    CompactAppend(rows[..k], sel[..k], rows[k], sel[k]);
    assert rows[..k + 1] == rows[..k] + [rows[k]];
    assert sel[..k + 1] == sel[..k] + [sel[k]];
  }

  /** Selecting by a and then by b among the remaining rows. */
  function BothSelect(a: seq<bool>, b: seq<bool>): (r: seq<bool>)
    requires |a| == |b|
    ensures |r| == |a|
  {
    seq(|a|, k requires 0 <= k < |a| => a[k] && b[k])
  }

  /** Compaction moves the row at the i-th selected position to position i. */
  lemma {:induction false} CompactAt<T>(rows: seq<T>, sel: seq<bool>)
    requires |rows| == |sel|
    ensures |Compact(rows, sel)| == |Positions(sel)|
    ensures forall i | 0 <= i < |Positions(sel)| :: Compact(rows, sel)[i] == rows[Positions(sel)[i]]
  {
    if rows != [] {
      var last := |rows| - 1;
      CompactAt(rows[..last], sel[..last]);
    }
  }

  lemma {:induction false} CompactLength<T, U>(rows: seq<T>, other: seq<U>, sel: seq<bool>)
    requires |rows| == |sel| == |other|
    ensures |Compact(rows, sel)| == |Compact(other, sel)|
  {
    if rows != [] {
      var last := |rows| - 1;
      CompactLength(rows[..last], other[..last], sel[..last]);
    }
  }

  /** Two selections in a row, the second one made on what the first leaves, are one
      selection by the conjunction on the original rows. */
  lemma {:induction false} CompactCompose<T>(rows: seq<T>, a: seq<bool>, b: seq<bool>)
    requires |rows| == |a| == |b|
    ensures |Compact(rows, a)| == |Compact(b, a)|
    ensures Compact(Compact(rows, a), Compact(b, a)) == Compact(rows, BothSelect(a, b))
  {
    CompactLength(rows, b, a);
    if rows != [] {
      var last := |rows| - 1;
      CompactCompose(rows[..last], a[..last], b[..last]);
      assert BothSelect(a, b)[..last] == BothSelect(a[..last], b[..last]);
      if a[last] {
        CompactAppend(Compact(rows[..last], a[..last]), Compact(b[..last], a[..last]), rows[last], b[last]);
      } else {
        assert Compact(rows, a) == Compact(rows[..last], a[..last]);
        assert Compact(b, a) == Compact(b[..last], a[..last]);
      }
    }
  }

  // ----- output chunks -----

  /** The chunks still to be written when the rows before t have been dealt with and the
      chunk being filled holds cur: a full chunk is closed if rows remain, and the last
      chunk is closed, full or not, when none do. */
  function EmitFrom<T>(rows: seq<T>, sel: seq<bool>, t: nat, cur: seq<T>): seq<seq<T>>
    requires t <= |rows| == |sel| && |cur| <= CHUNK_SIZE
    decreases |rows| - t, |cur|
  {
    if t == |rows| then [cur]
    else if |cur| == CHUNK_SIZE then [cur] + EmitFrom(rows, sel, t, [])
    else EmitFrom(rows, sel, t + 1, if sel[t] then cur + [rows[t]] else cur)
  }

  /** The chunks of the materialised column. */
  function Materialised<T>(rows: seq<T>, sel: seq<bool>): seq<seq<T>>
    requires |rows| == |sel|
  {
    EmitFrom(rows, sel, 0, [])
  }

  /** A chunk that is full, or that no row is left for, is closed behind those closed so far. */
  lemma CloseChunk<T>(rows: seq<T>, sel: seq<bool>, t: nat, cur: seq<T>, closed: seq<seq<T>>)
    requires t <= |rows| == |sel| && |cur| <= CHUNK_SIZE
    requires |cur| == CHUNK_SIZE || t == |rows|
    ensures closed + EmitFrom(rows, sel, t, cur)
         == if t == |rows| then closed + [cur] else closed + [cur] + EmitFrom(rows, sel, t, [])
  {
  }

  /** At least one chunk; all but the last are full, and none is longer. */
  predicate WellChunked(lens: Lengths) {
    && |lens| > 0
    && (forall c | 0 <= c < |lens| - 1 :: lens[c] == CHUNK_SIZE)
    && lens[|lens| - 1] <= CHUNK_SIZE
  }

  lemma FlattenPrepend<T>(chunk: seq<T>, chunks: seq<seq<T>>)
    ensures Flatten([chunk] + chunks) == chunk + Flatten(chunks)
  {
    if chunks == [] {
      assert [chunk] + chunks == [chunk];
    } else {
      var last := |chunks| - 1;
      FlattenPrepend(chunk, chunks[..last]);
      assert ([chunk] + chunks)[..last + 1] == [chunk] + chunks[..last];
    }
  }

  lemma {:induction false} EmitFlattens<T>(rows: seq<T>, sel: seq<bool>, t: nat, cur: seq<T>, closed: seq<T>)
    requires t <= |rows| == |sel| && |cur| <= CHUNK_SIZE
    requires closed + cur == Compact(rows[..t], sel[..t])
    ensures closed + Flatten(EmitFrom(rows, sel, t, cur)) == Compact(rows, sel)
    decreases |rows| - t, |cur|
  {
    if t == |rows| {
      assert rows[..t] == rows && sel[..t] == sel;
      FlattenPrepend(cur, []);
    } else if |cur| == CHUNK_SIZE {
      var rest := EmitFrom(rows, sel, t, []);
      assert closed + cur + [] == closed + cur;
      EmitFlattens(rows, sel, t, [], closed + cur);
      FlattenPrepend(cur, rest);
      assert closed + (cur + Flatten(rest)) == closed + cur + Flatten(rest);
    } else {
      CompactStep(rows, sel, t);
      var next := if sel[t] then cur + [rows[t]] else cur;
      assert closed + next == closed + cur + (if sel[t] then [rows[t]] else []);
      EmitFlattens(rows, sel, t + 1, next, closed);
    }
  }

  lemma {:induction false} EmitWellChunked<T>(rows: seq<T>, sel: seq<bool>, t: nat, cur: seq<T>)
    requires t <= |rows| == |sel| && |cur| <= CHUNK_SIZE
    ensures WellChunked(Lens(EmitFrom(rows, sel, t, cur)))
    decreases |rows| - t, |cur|
  {
    if t == |rows| {
    } else if |cur| == CHUNK_SIZE {
      EmitWellChunked(rows, sel, t, []);
      var rest := EmitFrom(rows, sel, t, []);
      assert Lens([cur] + rest) == [|cur|] + Lens(rest);
    } else {
      EmitWellChunked(rows, sel, t + 1, if sel[t] then cur + [rows[t]] else cur);
    }
  }

  lemma {:induction false} EmitLast<T>(rows: seq<T>, sel: seq<bool>, t: nat, cur: seq<T>)
    requires t <= |rows| == |sel| && |cur| <= CHUNK_SIZE
    requires |cur| == CHUNK_SIZE ==> t > 0 && sel[t - 1]
    requires t > 0 && sel[t - 1] ==> cur != []
    ensures var out := EmitFrom(rows, sel, t, cur);
      && out != []
      && (|out[|out| - 1]| == CHUNK_SIZE ==> sel != [] && sel[|sel| - 1])
      && (sel != [] && sel[|sel| - 1] ==> out[|out| - 1] != [])
    decreases |rows| - t, |cur|
  {
    if t < |rows| {
      if |cur| == CHUNK_SIZE {
        EmitNext(rows, sel, t);
      } else {
        EmitLast(rows, sel, t + 1, if sel[t] then cur + [rows[t]] else cur);
      }
    }
  }

  lemma {:induction false} EmitNext<T>(rows: seq<T>, sel: seq<bool>, t: nat)
    requires t < |rows| == |sel|
    ensures var out := EmitFrom(rows, sel, t, []);
      && out != []
      && (|out[|out| - 1]| == CHUNK_SIZE ==> sel[|sel| - 1])
      && (sel[|sel| - 1] ==> out[|out| - 1] != [])
    decreases |rows| - t, 0
  {
    EmitLast(rows, sel, t + 1, if sel[t] then [rows[t]] else []);
    assert [] + [rows[t]] == [rows[t]];
  }

  /** The last chunk holds a row if the last row is selected, and is full only then: an
      output that fills its chunks exactly gets an empty one after them when unselected
      rows follow. */
  lemma LastChunk<T>(rows: seq<T>, sel: seq<bool>)
    requires |rows| == |sel|
    ensures var out := Materialised(rows, sel);
      && out != []
      && (|out[|out| - 1]| == CHUNK_SIZE ==> sel != [] && sel[|sel| - 1])
      && (sel != [] && sel[|sel| - 1] ==> out[|out| - 1] != [])
  {
    EmitLast(rows, sel, 0, []);
  }

  /** The chunks of a materialised column with n rows: as many full ones as there are, and
      one for the rest, also for no rest if there is no row at all or if unselected rows
      came after the last selected one. */
  function ChunkLens(n: nat, endsSelected: bool): Lengths {
    seq(n / CHUNK_SIZE, _ => CHUNK_SIZE)
    + (if n % CHUNK_SIZE != 0 || n == 0 || !endsSelected then [n % CHUNK_SIZE] else [])
  }

  predicate EndsSelected(sel: seq<bool>) {
    sel != [] && sel[|sel| - 1]
  }

  lemma WellChunkedLens(lens: Lengths, endsSelected: bool)
    requires WellChunked(lens)
    requires lens[|lens| - 1] == CHUNK_SIZE ==> endsSelected
    requires endsSelected ==> lens[|lens| - 1] > 0
    ensures lens == ChunkLens(Total(lens), endsSelected)
  {
    var full, rest := |lens| - 1, lens[|lens| - 1];
    WellChunkedStart(lens, full);
    assert Total(lens) == full * CHUNK_SIZE + rest;
    if rest == CHUNK_SIZE {
      assert Total(lens) == (full + 1) * CHUNK_SIZE;
    }
  }

  /** Exactly the chunk boundaries of a materialised column, and so how many chunks it has. */
  lemma MaterialisedLens<T>(rows: seq<T>, sel: seq<bool>)
    requires |rows| == |sel|
    ensures Lens(Materialised(rows, sel)) == ChunkLens(|Compact(rows, sel)|, EndsSelected(sel))
  {
    var out := Materialised(rows, sel);
    MaterialisedIsCompaction(rows, sel);
    FlattenLength(out);
    LastChunk(rows, sel);
    WellChunkedLens(Lens(out), EndsSelected(sel));
  }

  /** When it makes a difference to the boundaries whether unselected rows came last. */
  lemma ChunkLensAgreeIff(n: nat, a: bool, b: bool)
    ensures ChunkLens(n, a) == ChunkLens(n, b) <==> a == b || n == 0 || n % CHUNK_SIZE != 0
  {
    if ChunkLens(n, a) == ChunkLens(n, b) {
      assert |ChunkLens(n, a)| == |ChunkLens(n, b)|;
    }
  }

  lemma {:induction false} EmitLayout<T, U>(rows: seq<T>, other: seq<U>, sel: seq<bool>, t: nat,
                                            cur: seq<T>, cur': seq<U>)
    requires t <= |rows| == |sel| == |other| && |cur| == |cur'| <= CHUNK_SIZE
    ensures Lens(EmitFrom(rows, sel, t, cur)) == Lens(EmitFrom(other, sel, t, cur'))
    decreases |rows| - t, |cur|
  {
    if t == |rows| {
    } else if |cur| == CHUNK_SIZE {
      EmitLayout(rows, other, sel, t, [], []);
      var rest, rest' := EmitFrom(rows, sel, t, []), EmitFrom(other, sel, t, []);
      assert Lens([cur] + rest) == [|cur|] + Lens(rest);
      assert Lens([cur'] + rest') == [|cur'|] + Lens(rest');
    } else {
      EmitLayout(rows, other, sel, t + 1,
                 if sel[t] then cur + [rows[t]] else cur, if sel[t] then cur' + [other[t]] else cur');
    }
  }

  /** Materialising keeps exactly the selected rows, in order, in well-formed chunks. */
  lemma {:induction false} MaterialisedIsCompaction<T>(rows: seq<T>, sel: seq<bool>)
    requires |rows| == |sel|
    ensures Flatten(Materialised(rows, sel)) == Compact(rows, sel)
    ensures WellChunked(Lens(Materialised(rows, sel)))
  {
    assert rows[..0] == [] && sel[..0] == [];
    EmitFlattens(rows, sel, 0, [], []);
    EmitWellChunked(rows, sel, 0, []);
  }

  /** Chunk boundaries depend on the bitmap alone, so columns that are materialised by
      the same bitmap get the same layout. */
  lemma MaterialisedLayout<T, U>(rows: seq<T>, other: seq<U>, sel: seq<bool>)
    requires |rows| == |sel| == |other|
    ensures Lens(Materialised(rows, sel)) == Lens(Materialised(other, sel))
  {
    EmitLayout(rows, other, sel, 0, [], []);
  }

  lemma {:induction false} WellChunkedStart(lens: Lengths, c: nat)
    requires WellChunked(lens) && c < |lens|
    ensures Start(lens, c) == c * CHUNK_SIZE
  {
    if c > 0 {
      WellChunkedStart(lens, c - 1);
    }
  }

  /** The layout of a materialised column is admissible for the next filter. */
  lemma WellChunkedIsAdmissible(lens: Lengths)
    requires WellChunked(lens)
    ensures Admissible(lens)
  {
    forall c | 0 <= c < |lens|
      ensures AdmissibleAt(lens, c)
    {
      WellChunkedStart(lens, c);
      NoLead(2048 * c);
    }
  }

  lemma NoLead(bytes: nat)
    ensures Lead(8 * bytes) == 0
  {
  }
}
