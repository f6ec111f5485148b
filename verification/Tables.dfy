/** Chunked columns and tables (arrow::ChunkedArray, arrow::Table), which are never
    changed once made. */
module Tables {
  import opened FixedWidth
  import opened Layout

  /** A field of a schema. */
  datatype Field = Field(name: string, t: DataType)

  datatype Column = Column(field: Field, chunks: seq<seq<int>>)

  datatype Table = Table(columns: seq<Column>)

  function Lens<T>(chunks: seq<seq<T>>): (lens: Lengths)
    ensures |lens| == |chunks|
  {
    seq(|chunks|, c requires 0 <= c < |chunks| => |chunks[c]|)
  }

  /** The rows of a chunked column, in order. */
  function Flatten<T>(chunks: seq<seq<T>>): seq<T> {
    if chunks == [] then [] else Flatten(chunks[..|chunks| - 1]) + chunks[|chunks| - 1]
  }

  lemma {:induction false} StartOfPrefix<T>(chunks: seq<seq<T>>, c: nat, d: nat)
    requires c <= d <= |chunks|
    ensures Start(Lens(chunks[..d]), c) == Start(Lens(chunks), c)
  {
    if c > 0 {
      StartOfPrefix(chunks, c - 1, d);
    }
  }

  lemma {:induction false} FlattenLength<T>(chunks: seq<seq<T>>)
    ensures |Flatten(chunks)| == Total(Lens(chunks))
  {
    if chunks != [] {
      var last := |chunks| - 1;
      FlattenLength(chunks[..last]);
      StartOfPrefix(chunks, last, last);
    }
  }

  /** Chunk c holds the rows from its start to the start of the next. */
  lemma {:induction false} FlattenSlice<T>(chunks: seq<seq<T>>, c: nat)
    requires c < |chunks|
    ensures Start(Lens(chunks), c + 1) <= |Flatten(chunks)|
    ensures Flatten(chunks)[Start(Lens(chunks), c)..Start(Lens(chunks), c + 1)] == chunks[c]
  {
    var last := |chunks| - 1;
    FlattenLength(chunks);
    FlattenLength(chunks[..last]);
    StartOfPrefix(chunks, last, last);
    if c < last {
      FlattenSlice(chunks[..last], c);
      StartOfPrefix(chunks, c, last);
      StartOfPrefix(chunks, c + 1, last);
    }
  }
}
