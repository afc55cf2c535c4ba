/**
 * `ChunkyReader`: answers a query given as one slice per image dimension
 * with the concatenation of every chunk file the query touches.
 */
module ChunkyRead {
  import opened Outcomes
  import opened GridMath
  import opened Cartesian
  import opened Table
  import opened Layout

  /** One entry of a subscript: a slice with optional bounds (its step is ignored), or anything else. */
  datatype Key = Slice(start: Option<int>, stop: Option<int>) | NotSlice

  /** The exceptions a query can raise. */
  datatype ReadError =
    | ShapeMismatch               // the subscript's length is not the image's dimension count
    | NotASlice(dim: nat)         // a followed entry of the subscript is not a slice
    | ZeroChunkSize(dim: nat)     // division by a recorded chunk size of 0
    | EmptyAccessor               // the empty cell tuple has no last index to name a file
    | MissingChunk(path: seq<string>)  // the chunk file does not exist

  /**
   * One followed dimension: the missing bounds default to 0 and the followed
   * extent, and the pixel range `[start, stop)` becomes the chunk-index range
   * `[floor(start/size), ceil(stop/size))`.
   */
  function DimRange(size: nat, key: Key, shape: nat, dim: nat): Result<Range, ReadError> {
    if !key.Slice? then Err(NotASlice(dim))
    else if size == 0 then Err(ZeroChunkSize(dim))
    else
      var start := key.start.GetOr(0);
      var stop := key.stop.GetOr(shape);
      Ok(Range(FloorDiv(start, size), CeilDiv(stop, size)))
  }

  /** How many entries `zip(chunk_size, subscript, follow_shape)` yields. */
  function ZipLength(a: nat, b: nat, c: nat): (n: nat)
    ensures n <= a && n <= b && n <= c
    ensures n == a || n == b || n == c
  {
    if a <= b && a <= c then a else if b <= c then b else c
  }

  /** `df_range` after the first n iterations of the range loop. */
  function QueryRanges(sizes: seq<nat>, subscript: seq<Key>, shapes: seq<nat>, n: nat): Result<seq<Range>, ReadError>
    requires n <= |sizes| && n <= |subscript| && n <= |shapes|
  {
    if n == 0 then Ok([])
    else
      match QueryRanges(sizes, subscript, shapes, n - 1)
      case Err(e) => Err(e)
      case Ok(rs) =>
        match DimRange(sizes[n - 1], subscript[n - 1], shapes[n - 1], n - 1)
        case Err(e) => Err(e)
        case Ok(r) => Ok(rs + [r])
  }

  /**
   * The range loop succeeds exactly when every followed dimension does, with
   * one range per dimension in order; otherwise it fails with the error of
   * the first dimension that fails.
   */
  lemma {:induction false} QueryRangesSpec(sizes: seq<nat>, subscript: seq<Key>, shapes: seq<nat>, n: nat)
    requires n <= |sizes| && n <= |subscript| && n <= |shapes|
    ensures QueryRanges(sizes, subscript, shapes, n).Ok? <==>
      forall i :: 0 <= i < n ==> DimRange(sizes[i], subscript[i], shapes[i], i).Ok?
    ensures QueryRanges(sizes, subscript, shapes, n).Ok? ==>
      var rs := QueryRanges(sizes, subscript, shapes, n).value;
      |rs| == n && forall i :: 0 <= i < n ==> rs[i] == DimRange(sizes[i], subscript[i], shapes[i], i).value
    ensures QueryRanges(sizes, subscript, shapes, n).Err? ==>
      exists i :: 0 <= i < n && DimRange(sizes[i], subscript[i], shapes[i], i).Err? &&
        QueryRanges(sizes, subscript, shapes, n).error == DimRange(sizes[i], subscript[i], shapes[i], i).error &&
        forall j :: 0 <= j < i ==> DimRange(sizes[j], subscript[j], shapes[j], j).Ok?
    decreases n
  {
    if n > 0 {
      QueryRangesSpec(sizes, subscript, shapes, n - 1);
    }
  }

  /** The loaded chunks of the first cells, in enumeration order, or the first failure. */
  function LoadChunks<P>(files: Files<P>, root: string, cells: seq<seq<int>>): Result<seq<seq<Row<P>>>, ReadError>
    decreases |cells|
  {
    if cells == [] then Ok([])
    else
      match LoadChunks(files, root, cells[..|cells| - 1])
      case Err(e) => Err(e)
      case Ok(chunks) =>
        var c := cells[|cells| - 1];
        if |c| == 0 then Err(EmptyAccessor)
        else if ChunkFile(root, c) !in files then Err(MissingChunk(ChunkFile(root, c)))
        else Ok(chunks + [files[ChunkFile(root, c)]])
  }

  /** When every cell names an existing file, loading yields each file's rows in cell order. */
  lemma {:induction false} LoadChunksPresent<P>(files: Files<P>, root: string, cells: seq<seq<int>>)
    requires forall j :: 0 <= j < |cells| ==> |cells[j]| >= 1 && ChunkFile(root, cells[j]) in files
    ensures LoadChunks(files, root, cells).Ok?
    ensures var chunks := LoadChunks(files, root, cells).value;
      |chunks| == |cells| && forall j :: 0 <= j < |cells| ==> chunks[j] == files[ChunkFile(root, cells[j])]
    decreases |cells|
  {
    if cells != [] {
      var n := |cells| - 1;
      var pre := cells[..n];
      assert forall j :: 0 <= j < |pre| ==> pre[j] == cells[j];
      LoadChunksPresent(files, root, pre);
      LoadChunksStep(files, root, cells, n);
      assert cells[..n + 1] == cells;
      var prev := LoadChunks(files, root, pre).value;
      var chunks := prev + [files[ChunkFile(root, cells[n])]];
      assert LoadChunks(files, root, cells) == Ok(chunks);
      forall j | 0 <= j < |cells| ensures chunks[j] == files[ChunkFile(root, cells[j])] {
        if j < n {
          assert chunks[j] == prev[j] && pre[j] == cells[j];
        } else {
          assert j == n && chunks[j] == files[ChunkFile(root, cells[n])];
        }
      }
    }
  }

  /** A query naming a file that does not exist fails, whatever the other cells. */
  lemma {:induction false} LoadChunksMissing<P>(files: Files<P>, root: string, cells: seq<seq<int>>, j: nat)
    requires j < |cells| && |cells[j]| >= 1 && ChunkFile(root, cells[j]) !in files
    ensures LoadChunks(files, root, cells).Err?
    decreases |cells|
  {
    if j < |cells| - 1 {
      var pre := cells[..|cells| - 1];
      assert pre[j] == cells[j];
      LoadChunksMissing(files, root, pre, j);
    }
  }

  /** `df` after the loading loop: each new chunk in front, None when there is none. */
  function Prepended<T>(chunks: seq<seq<T>>): Option<seq<T>>
    decreases |chunks|
  {
    if chunks == [] then None
    else
      var newdf := chunks[|chunks| - 1];
      match Prepended(chunks[..|chunks| - 1])
      case None => Some(newdf)
      case Some(df) => Some(newdf + df)
  }

  lemma {:induction false} ReverseAppend<T>(s: seq<T>, x: T)
    ensures Reverse(s + [x]) == [x] + Reverse(s)
    decreases |s|
  {
    if s != [] {
      assert (s + [x])[1..] == s[1..] + [x];
      ReverseAppend(s[1..], x);
    }
  }

  /** Prepending each chunk gives the concatenation of the chunks in reverse order. */
  lemma {:induction false} PrependedIsReversedConcat<T>(chunks: seq<seq<T>>)
    ensures Prepended(chunks) == if chunks == [] then None else Some(Concat(Reverse(chunks)))
    decreases |chunks|
  {
    if chunks != [] {
      var pre, last := chunks[..|chunks| - 1], chunks[|chunks| - 1];
      PrependedIsReversedConcat(pre);
      assert chunks == pre + [last];
      ReverseAppend(pre, last);
      assert Concat([last] + Reverse(pre)) == last + Concat(Reverse(pre)) by {
        assert ([last] + Reverse(pre))[1..] == Reverse(pre);
      }
      if pre == [] {
        assert Prepended(pre) == None;
        assert Prepended(chunks) == Some(last);
        assert Reverse(pre) == [];
        assert Concat(Reverse(pre)) == [];
        assert last + [] == last;
      }
    }
  }

  /**
   * The query `reader[subscript]` against the stored files: the arity check,
   * the range loop over the followed dimensions, then the product of the
   * ranges loaded and prepended.
   */
  function Query<P>(imageShape: seq<nat>, sizes: seq<nat>, shapes: seq<nat>, root: string,
                    subscript: seq<Key>, files: Files<P>): Result<Option<seq<Row<P>>>, ReadError>
  {
    if |subscript| != |imageShape| then Err(ShapeMismatch)
    else
      match QueryRanges(sizes, subscript, shapes, ZipLength(|sizes|, |subscript|, |shapes|))
      case Err(e) => Err(e)
      case Ok(rs) =>
        match LoadChunks(files, root, Product(rs))
        case Err(e) => Err(e)
        case Ok(chunks) => Ok(Prepended(chunks))
  }

  /** A subscript of the right arity whose ranges succeed is answered by loading their product. */
  lemma QueryViaRanges<P>(imageShape: seq<nat>, sizes: seq<nat>, shapes: seq<nat>, root: string,
                          subscript: seq<Key>, files: Files<P>, rs: seq<Range>)
    requires |subscript| == |imageShape|
    requires QueryRanges(sizes, subscript, shapes, ZipLength(|sizes|, |subscript|, |shapes|)) == Ok(rs)
    ensures Query(imageShape, sizes, shapes, root, subscript, files) ==
      match LoadChunks(files, root, Product(rs))
      case Err(e) => Err(e)
      case Ok(chunks) => Ok(Prepended(chunks))
  {
  }

  /** The arity check is the only source of ShapeMismatch, and it is never skipped. */
  lemma QueryArity<P>(imageShape: seq<nat>, sizes: seq<nat>, shapes: seq<nat>, root: string,
                      subscript: seq<Key>, files: Files<P>)
    ensures Query(imageShape, sizes, shapes, root, subscript, files) == Err(ShapeMismatch) <==>
      |subscript| != |imageShape|
  {
    var n := ZipLength(|sizes|, |subscript|, |shapes|);
    if |subscript| == |imageShape| {
      QueryRangesSpec(sizes, subscript, shapes, n);
      var q := QueryRanges(sizes, subscript, shapes, n);
      if q.Ok? {
        var lc := LoadChunks(files, root, Product(q.value));
        if lc.Err? {
          LoadChunksErrKind(files, root, Product(q.value));
        }
      }
    }
  }

  /** Loading fails only for the empty tuple or a missing file. */
  lemma {:induction false} LoadChunksErrKind<P>(files: Files<P>, root: string, cells: seq<seq<int>>)
    ensures LoadChunks(files, root, cells).Err? ==>
      LoadChunks(files, root, cells).error.EmptyAccessor? || LoadChunks(files, root, cells).error.MissingChunk?
    decreases |cells|
  {
    if cells != [] {
      LoadChunksErrKind(files, root, cells[..|cells| - 1]);
    }
  }

  /**
   * Entries past the followed dimensions are only counted: two subscripts of
   * the same length that agree on the followed entries give the same result.
   */
  lemma {:induction false} QueryIgnoresTrailingEntries<P>(imageShape: seq<nat>, sizes: seq<nat>, shapes: seq<nat>,
                                                        root: string, s: seq<Key>, s': seq<Key>, files: Files<P>)
    requires |s| == |s'|
    requires forall i :: 0 <= i < ZipLength(|sizes|, |s|, |shapes|) ==> s[i] == s'[i]
    ensures Query(imageShape, sizes, shapes, root, s, files) == Query(imageShape, sizes, shapes, root, s', files)
  {
    var n := ZipLength(|sizes|, |s|, |shapes|);
    QueryRangesAgree(sizes, s, s', shapes, n);
  }

  lemma {:induction false} QueryRangesAgree(sizes: seq<nat>, s: seq<Key>, s': seq<Key>, shapes: seq<nat>, n: nat)
    requires n <= |sizes| && n <= |s| && n <= |s'| && n <= |shapes|
    requires forall i :: 0 <= i < n ==> s[i] == s'[i]
    ensures QueryRanges(sizes, s, shapes, n) == QueryRanges(sizes, s', shapes, n)
    decreases n
  {
    if n > 0 {
      QueryRangesAgree(sizes, s, s', shapes, n - 1);
    }
  }

  /** Every pixel of a followed range lies in a chunk whose index the range enumerates. */
  lemma {:induction false} RangeCoversPixels(size: nat, key: Key, shape: nat, dim: nat, p: int)
    requires size > 0 && key.Slice?
    requires key.start.GetOr(0) <= p < key.stop.GetOr(shape)
    ensures DimRange(size, key, shape, dim).Ok?
    ensures var r := DimRange(size, key, shape, dim).value; r.lo <= FloorDiv(p, size) < r.hi
  {
    var start, stop := key.start.GetOr(0), key.stop.GetOr(shape);
    FloorDivMonotonic(start, p, size);
    var f, c := FloorDiv(p, size), CeilDiv(stop, size);
    if c <= f {
      if c < f { MulStep(c, f, size); }
    }
  }

  /**
   * An empty slice (`start == stop`) still yields the one chunk around
   * `start` unless `start` lies on a chunk boundary, so the reader loads
   * that chunk although the slice selects no pixel.
   */
  lemma EmptySliceRange(size: nat, key: Key, shape: nat, dim: nat)
    requires size > 0 && key.Slice?
    requires key.start.GetOr(0) == key.stop.GetOr(shape)
    ensures var start := key.start.GetOr(0);
      var r := DimRange(size, key, shape, dim).value;
      r.lo == FloorDiv(start, size) &&
      r.hi - r.lo == if FloorDiv(start, size) * size == start then 0 else 1
  {
    var start := key.start.GetOr(0);
    var q := FloorDiv(start, size);
    if q * size == start {
      CeilDivUnique(start, size, q);
    } else {
      assert (q + 1) * size == q * size + size;
      CeilDivUnique(start, size, q + 1);
    }
  }

  /** Conversely, every enumerated chunk index holds a pixel of a non-empty range. */
  lemma {:induction false} RangeTouchesOnlyCoveredChunks(size: nat, key: Key, shape: nat, dim: nat, i: int)
    requires size > 0 && key.Slice?
    requires key.start.GetOr(0) < key.stop.GetOr(shape)
    requires DimRange(size, key, shape, dim).value.lo <= i < DimRange(size, key, shape, dim).value.hi
    ensures exists p :: key.start.GetOr(0) <= p < key.stop.GetOr(shape) && FloorDiv(p, size) == i
  {
    var start, stop := key.start.GetOr(0), key.stop.GetOr(shape);
    var c := CeilDiv(stop, size);
    assert i * size < stop by {
      if i + 1 < c { MulStep(i, c - 1, size); }
      assert (c - 1) * size == c * size - size;
    }
    if start <= i * size {
      UnitMembership(i * size, i, size);
      assert FloorDiv(i * size, size) == i;
    } else {
      var f := FloorDiv(start, size);
      assert start < i * size + size by {
        if f < i { MulStep(f, i, size); }
      }
      FloorDivUnique(start, size, i);
    }
  }

  /**
   * A reader over one dataset. Its fields are taken from the metadata once,
   * at construction, and no query changes them.
   */
  class ChunkyReader {
    const tableMeta: Meta
    const imageShape: seq<nat>
    const chunkSize: seq<nat>
    const followShape: seq<nat>
    const tablePath: string

    /** `ChunkyReader(table_path)` given the decoded `meta.json` of that path. */
    constructor (tablePath: string, meta: Meta)
      ensures this.tableMeta == meta && this.tablePath == tablePath
      ensures imageShape == meta.imageShape && chunkSize == meta.imageChunksize && followShape == meta.followShape
    {
      this.tableMeta := meta;
      this.imageShape := meta.imageShape;
      this.chunkSize := meta.imageChunksize;
      this.followShape := meta.followShape;
      this.tablePath := tablePath;
    }

    /** The first loop of `reader[subscript]`: one chunk-index range per zipped dimension. */
    method SliceRanges(subscript: seq<Key>) returns (ranges: Result<seq<Range>, ReadError>)
      ensures ranges == QueryRanges(chunkSize, subscript, followShape, ZipLength(|chunkSize|, |subscript|, |followShape|))
    {
      var n := ZipLength(|chunkSize|, |subscript|, |followShape|);
      var dfRange: seq<Range> := [];
      for i := 0 to n
        invariant QueryRanges(chunkSize, subscript, followShape, i) == Ok(dfRange)
      {
        var slice := subscript[i];
        if !slice.Slice? {
          QueryRangesErrStays(chunkSize, subscript, followShape, i + 1, n);
          return Err(NotASlice(i));
        }
        var start := if slice.start.Some? then slice.start.value else 0;
        var stop := if slice.stop.Some? then slice.stop.value else followShape[i];
        if chunkSize[i] == 0 {
          QueryRangesErrStays(chunkSize, subscript, followShape, i + 1, n);
          return Err(ZeroChunkSize(i));
        }
        var first := FloorDiv(start, chunkSize[i]);
        var last := CeilDiv(stop, chunkSize[i]);
        dfRange := dfRange + [Range(first, last)];
      }
      return Ok(dfRange);
    }

    /** `reader[subscript]` against the chunk files that exist. */
    method GetItem<P>(subscript: seq<Key>, files: Files<P>) returns (df: Result<Option<seq<Row<P>>>, ReadError>)
      ensures df == Query(imageShape, chunkSize, followShape, tablePath, subscript, files)
    {
      if |subscript| != |imageShape| {
        return Err(ShapeMismatch);
      }
      var ranges := SliceRanges(subscript);
      if ranges.Err? {
        return Err(ranges.error);
      }
      var dfRange := ranges.value;
      assert Query(imageShape, chunkSize, followShape, tablePath, subscript, files) ==
        match LoadChunks(files, tablePath, Product(dfRange))
        case Err(e) => Err(e)
        case Ok(chunks) => Ok(Prepended(chunks));
      var cells := Product(dfRange);
      var acc: Option<seq<Row<P>>> := None;
      ghost var loaded: seq<seq<Row<P>>> := [];
      for j := 0 to |cells|
        invariant LoadChunks(files, tablePath, cells[..j]) == Ok(loaded)
        invariant acc == Prepended(loaded)
      {
        var accessor := cells[j];
        LoadChunksStep(files, tablePath, cells, j);
        if |accessor| == 0 {
          LoadChunksErrStays(files, tablePath, cells, j + 1);
          return Err(EmptyAccessor);
        }
        var file := ChunkFile(tablePath, accessor);
        if file !in files {
          LoadChunksErrStays(files, tablePath, cells, j + 1);
          return Err(MissingChunk(file));
        }
        var newdf := files[file];
        if acc.None? {
          acc := Some(newdf);
        } else {
          acc := Some(newdf + acc.value);
        }
        assert (loaded + [newdf])[..|loaded|] == loaded;
        loaded := loaded + [newdf];
      }
      assert cells[..|cells|] == cells;
      return Ok(acc);
    }
  }

  /** One more cell: loading the first j + 1 cells extends the first j by that cell's file, or fails on it. */
  lemma LoadChunksStep<P>(files: Files<P>, root: string, cells: seq<seq<int>>, j: nat)
    requires j < |cells| && LoadChunks(files, root, cells[..j]).Ok?
    ensures LoadChunks(files, root, cells[..j + 1]) ==
      if |cells[j]| == 0 then Err(EmptyAccessor)
      else if ChunkFile(root, cells[j]) !in files then Err(MissingChunk(ChunkFile(root, cells[j])))
      else Ok(LoadChunks(files, root, cells[..j]).value + [files[ChunkFile(root, cells[j])]])
  {
    assert cells[..j + 1][..j] == cells[..j];
  }

  /** Once the range loop fails, it fails the same way however many dimensions follow. */
  lemma {:induction false} QueryRangesErrStays(sizes: seq<nat>, subscript: seq<Key>, shapes: seq<nat>, n: nat, n': nat)
    requires n <= n' <= |sizes| && n' <= |subscript| && n' <= |shapes|
    requires QueryRanges(sizes, subscript, shapes, n).Err?
    ensures QueryRanges(sizes, subscript, shapes, n') == QueryRanges(sizes, subscript, shapes, n)
    decreases n' - n
  {
    if n < n' {
      QueryRangesErrStays(sizes, subscript, shapes, n, n' - 1);
    }
  }

  /** Once loading fails, it fails the same way for every longer enumeration. */
  lemma {:induction false} LoadChunksErrStays<P>(files: Files<P>, root: string, cells: seq<seq<int>>, n: nat)
    requires n <= |cells|
    requires LoadChunks(files, root, cells[..n]).Err?
    ensures LoadChunks(files, root, cells) == LoadChunks(files, root, cells[..n])
    decreases |cells| - n
  {
    if n < |cells| {
      assert cells[..|cells| - 1][..n] == cells[..n];
      LoadChunksErrStays(files, root, cells[..|cells| - 1], n);
    } else {
      assert cells[..n] == cells;
    }
  }
}
