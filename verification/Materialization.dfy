/** materialize_column of pefa/execution/execution.cpp: the compaction loops over two
    chunkings at once, one method for each of the three nested loops. */
module Materialization {
  import opened FixedWidth
  import opened Bitmaps
  import opened Layout
  import opened Tables
  import opened Compaction

  /** The bit of row t, as the number the loop adds to its output cursor. */
  function BitNumber(b: bv8, j: nat): (r: nat)
    requires j < 8
    ensures r == if Bit(b, j) then 1 else 0
  {
    BitIsZeroOrOne(b, j);
    ((b >> (7 - j)) & 1) as nat
  }

  lemma BitIsZeroOrOne(b: bv8, j: nat)
    requires j < 8
    ensures (b >> (7 - j)) & 1 == 0 || (b >> (7 - j)) & 1 == 1
  {
  }

  /** The first n bits of a bitmap. */
  ghost function Selection(bitmap: array<bv8>, n: nat): (sel: seq<bool>)
    requires n <= 8 * bitmap.Length
    reads bitmap
    ensures |sel| == n
  {
    Bits(bitmap[..])[..n]
  }

  /** Cursors point at row t: row p of chunk c, or the end of all chunks. */
  ghost predicate CursorsAt<T>(chunks: seq<seq<T>>, c: int, p: int, t: int) {
    && 0 <= c <= |chunks|
    && 0 <= p <= (if c < |chunks| then |chunks[c]| else 0)
    && t == Start(Lens(chunks), c) + p
  }

  /** While rows remain, the chunk cursor is in range and its chunk lies in the rows. */
  lemma CursorInChunk<T>(chunks: seq<seq<T>>, c: int, p: int, t: int, rows: seq<T>)
    requires rows == Flatten(chunks) && CursorsAt(chunks, c, p, t) && t < |rows|
    ensures c < |chunks| && 0 <= t - p && t - p + |chunks[c]| <= |rows|
    ensures rows[t - p..][..|chunks[c]|] == chunks[c]
  {
    FlattenLength(chunks);
    FlattenSlice(chunks, c);
  }

  lemma CursorMoves<T>(chunks: seq<seq<T>>, c: int, p: int, t: int, p': int, t': int)
    requires CursorsAt(chunks, c, p, t) && c < |chunks|
    requires t' - t == p' - p >= 0 && p' <= |chunks[c]|
    ensures CursorsAt(chunks, c, p', t')
    ensures p' == |chunks[c]| ==> CursorsAt(chunks, c + 1, 0, t')
  {
    assert Start(Lens(chunks), c + 1) == Start(Lens(chunks), c) + |chunks[c]|;
  }

  lemma RowOfChunk<T>(chunk: seq<T>, rows: seq<T>, start: nat, i: nat)
    requires start + |chunk| <= |rows| && rows[start..][..|chunk|] == chunk && i < |chunk|
    ensures chunk[i] == rows[start + i]
  {
    assert rows[start..][..|chunk|][i] == rows[start + i];
  }

  /** One row: written at the output cursor, which moves on if the row is selected and
      lets the next row overwrite it otherwise. */
  method CopyRow<T>(value: T, bitmap: array<bv8>, dataOut: array<T>, pos: CInt, t: CInt,
                    ghost rows: seq<T>, ghost sel: seq<bool>)
    returns (newPos: CInt)
    requires |rows| <= 8 * bitmap.Length && sel == Selection(bitmap, |rows|)
    requires 0 <= t < |rows| && value == rows[t]
    requires dataOut.Length == CHUNK_SIZE && 0 <= pos < CHUNK_SIZE
    requires dataOut as object != bitmap as object
    modifies dataOut
    ensures pos <= newPos <= pos + 1
    ensures EmitFrom(rows, sel, t + 1, dataOut[..newPos]) == EmitFrom(rows, sel, t, old(dataOut[..pos]))
  {
    ghost var cur := dataOut[..pos];
    dataOut[pos] := value;
    assert dataOut[..pos] == cur && dataOut[..pos + 1] == cur + [rows[t]];
    newPos := pos + BitNumber(bitmap[t / 8], t % 8);
    assert dataOut[..newPos] == if sel[t] then cur + [rows[t]] else cur;
  }

  /** The `for` loop: copies rows of one chunk until the output chunk is full or the
      chunk is exhausted. */
  method CopyRows<T>(chunk: seq<T>, bitmap: array<bv8>, dataOut: array<T>,
                     newChunkPos0: CInt, currentChunkPos0: CInt, totalElementsPos0: CInt,
                     ghost rows: seq<T>, ghost sel: seq<bool>)
    returns (newChunkPos: CInt, currentChunkPos: CInt, totalElementsPos: CInt)
    requires |rows| < 0x8000_0000 && |rows| <= 8 * bitmap.Length && sel == Selection(bitmap, |rows|)
    requires dataOut.Length == CHUNK_SIZE && 0 <= newChunkPos0 <= CHUNK_SIZE
    requires 0 <= currentChunkPos0 <= totalElementsPos0 && currentChunkPos0 <= |chunk|
    requires totalElementsPos0 - currentChunkPos0 + |chunk| <= |rows|
    requires rows[totalElementsPos0 - currentChunkPos0..][..|chunk|] == chunk
    requires dataOut as object != bitmap as object
    modifies dataOut
    ensures 0 <= newChunkPos - newChunkPos0 <= totalElementsPos - totalElementsPos0
         == currentChunkPos - currentChunkPos0
    ensures newChunkPos <= CHUNK_SIZE && currentChunkPos <= |chunk|
    ensures newChunkPos == CHUNK_SIZE || currentChunkPos == |chunk|
    ensures EmitFrom(rows, sel, totalElementsPos, dataOut[..newChunkPos])
         == EmitFrom(rows, sel, totalElementsPos0, old(dataOut[..newChunkPos0]))
  {
    newChunkPos, currentChunkPos, totalElementsPos := newChunkPos0, currentChunkPos0, totalElementsPos0;
    ghost var start := totalElementsPos0 - currentChunkPos0;
    ghost var goal := EmitFrom(rows, sel, totalElementsPos0, dataOut[..newChunkPos0]);
    while newChunkPos < CHUNK_SIZE && currentChunkPos < |chunk|
      invariant 0 <= newChunkPos - newChunkPos0 <= totalElementsPos - totalElementsPos0
             == currentChunkPos - currentChunkPos0
      invariant newChunkPos <= CHUNK_SIZE && currentChunkPos <= |chunk|
      invariant Selection(bitmap, |rows|) == sel
      invariant EmitFrom(rows, sel, totalElementsPos, dataOut[..newChunkPos]) == goal
    {
      RowOfChunk(chunk, rows, start, currentChunkPos);
      newChunkPos := CopyRow(chunk[currentChunkPos], bitmap, dataOut, newChunkPos, totalElementsPos, rows, sel);
      currentChunkPos, totalElementsPos := currentChunkPos + 1, totalElementsPos + 1;
    }
  }

  /** One iteration of the `while` loop: rows of one input chunk, and on to the next one
      if it is exhausted. */
  method FillFromChunk<T>(chunks: seq<seq<T>>, bitmap: array<bv8>, dataOut: array<T>,
                          newChunkPos0: CInt, currentChunk0: CInt, currentChunkPos0: CInt, totalElementsPos0: CInt,
                          ghost rows: seq<T>, ghost sel: seq<bool>)
    returns (newChunkPos: CInt, currentChunk: CInt, currentChunkPos: CInt, totalElementsPos: CInt)
    requires |chunks| < 0x8000_0000 && rows == Flatten(chunks)
    requires |rows| < 0x8000_0000 && |rows| <= 8 * bitmap.Length && sel == Selection(bitmap, |rows|)
    requires dataOut.Length == CHUNK_SIZE && 0 <= newChunkPos0 < CHUNK_SIZE
    requires CursorsAt(chunks, currentChunk0, currentChunkPos0, totalElementsPos0)
    requires totalElementsPos0 < |rows|
    requires dataOut as object != bitmap as object
    modifies dataOut
    ensures 0 <= newChunkPos - newChunkPos0 <= totalElementsPos - totalElementsPos0
    ensures newChunkPos <= CHUNK_SIZE && totalElementsPos <= |rows|
    ensures CursorsAt(chunks, currentChunk, currentChunkPos, totalElementsPos)
    ensures currentChunk >= currentChunk0
    ensures totalElementsPos > totalElementsPos0 || currentChunk > currentChunk0
    ensures EmitFrom(rows, sel, totalElementsPos, dataOut[..newChunkPos])
         == EmitFrom(rows, sel, totalElementsPos0, old(dataOut[..newChunkPos0]))
  {
    CursorInChunk(chunks, currentChunk0, currentChunkPos0, totalElementsPos0, rows);
    currentChunk := currentChunk0;
    var chunk := chunks[currentChunk];
    newChunkPos, currentChunkPos, totalElementsPos :=
      CopyRows(chunk, bitmap, dataOut, newChunkPos0, currentChunkPos0, totalElementsPos0, rows, sel);
    CursorMoves(chunks, currentChunk, currentChunkPos0, totalElementsPos0, currentChunkPos, totalElementsPos);
    if currentChunkPos == |chunk| {
      currentChunk := currentChunk + 1;
      currentChunkPos := 0;
    }
  }

  /** The `while` loop: fills one output chunk from as many input chunks as it takes. */
  method FillChunk<T>(chunks: seq<seq<T>>, bitmap: array<bv8>, dataOut: array<T>,
                      currentChunk0: CInt, currentChunkPos0: CInt, totalElementsPos0: CInt,
                      ghost rows: seq<T>, ghost sel: seq<bool>)
    returns (newChunkPos: CInt, currentChunk: CInt, currentChunkPos: CInt, totalElementsPos: CInt)
    requires |chunks| < 0x8000_0000 && rows == Flatten(chunks)
    requires |rows| < 0x8000_0000 && |rows| <= 8 * bitmap.Length && sel == Selection(bitmap, |rows|)
    requires dataOut.Length == CHUNK_SIZE
    requires CursorsAt(chunks, currentChunk0, currentChunkPos0, totalElementsPos0)
    requires totalElementsPos0 <= |rows|
    requires dataOut as object != bitmap as object
    modifies dataOut
    ensures 0 <= newChunkPos <= CHUNK_SIZE
    ensures CursorsAt(chunks, currentChunk, currentChunkPos, totalElementsPos)
    ensures totalElementsPos0 + newChunkPos <= totalElementsPos <= |rows|
    ensures newChunkPos == CHUNK_SIZE || totalElementsPos == |rows|
    ensures EmitFrom(rows, sel, totalElementsPos, dataOut[..newChunkPos]) == EmitFrom(rows, sel, totalElementsPos0, [])
  {
    newChunkPos, currentChunk := 0, currentChunk0;
    currentChunkPos, totalElementsPos := currentChunkPos0, totalElementsPos0;
    var totalLength := |Flatten(chunks)|;
    assert dataOut[..0] == [];
    ghost var goal := EmitFrom(rows, sel, totalElementsPos0, dataOut[..0]);
    while newChunkPos < CHUNK_SIZE && totalElementsPos < totalLength
      invariant 0 <= newChunkPos <= CHUNK_SIZE
      invariant CursorsAt(chunks, currentChunk, currentChunkPos, totalElementsPos)
      invariant totalElementsPos0 + newChunkPos <= totalElementsPos <= totalLength
      invariant Selection(bitmap, |rows|) == sel
      invariant EmitFrom(rows, sel, totalElementsPos, dataOut[..newChunkPos]) == goal
      decreases (totalLength - totalElementsPos) + (|chunks| - currentChunk)
    {
      newChunkPos, currentChunk, currentChunkPos, totalElementsPos :=
        FillFromChunk(chunks, bitmap, dataOut, newChunkPos, currentChunk, currentChunkPos, totalElementsPos, rows, sel);
    }
  }

  /** Materialises one column by the first bits of the bitmap, one per row. */
  method MaterializeColumn<T(0)>(chunks: seq<seq<T>>, bitmap: array<bv8>) returns (newColumn: seq<seq<T>>)
    requires |chunks| < 0x8000_0000 && |Flatten(chunks)| < 0x8000_0000 && |Flatten(chunks)| <= 8 * bitmap.Length
    ensures newColumn == Materialised(Flatten(chunks), Selection(bitmap, |Flatten(chunks)|))
    ensures Flatten(newColumn) == Compact(Flatten(chunks), Selection(bitmap, |Flatten(chunks)|))
    ensures WellChunked(Lens(newColumn))
  {
    ghost var rows := Flatten(chunks);
    ghost var sel := Selection(bitmap, |rows|);
    MaterialisedIsCompaction(rows, sel);
    newColumn := [];
    var currentChunk: CInt, currentChunkPos: CInt, totalElementsPos: CInt := 0, 0, 0;
    var totalLength := |Flatten(chunks)|;
    var more := true;
    while more
      invariant CursorsAt(chunks, currentChunk, currentChunkPos, totalElementsPos)
      invariant totalElementsPos <= totalLength
      invariant Selection(bitmap, |rows|) == sel
      invariant !more ==> newColumn == Materialised(rows, sel)
      invariant more ==> newColumn + EmitFrom(rows, sel, totalElementsPos, []) == Materialised(rows, sel)
      decreases if more then totalLength - totalElementsPos + 1 else 0
    {
      var dataOut := new T[CHUNK_SIZE];
      var newChunkPos;
      ghost var before := totalElementsPos;
      newChunkPos, currentChunk, currentChunkPos, totalElementsPos :=
        FillChunk(chunks, bitmap, dataOut, currentChunk, currentChunkPos, totalElementsPos, rows, sel);
      ghost var cur, closed := dataOut[..newChunkPos], newColumn;
      newColumn := newColumn + [dataOut[..newChunkPos]];
      more := totalElementsPos < totalLength;
      CloseChunk(rows, sel, totalElementsPos, cur, closed);
    }
  }
}
