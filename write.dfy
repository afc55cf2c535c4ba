/**
 * `write_chunky`: partitions a table into one chunk file per cell of the
 * grid that follows the leading image dimensions, and records the grid in
 * the metadata document.
 */
module ChunkyWrite {
  import opened Outcomes
  import opened GridMath
  import opened Cartesian
  import opened Table
  import opened Layout

  /** The exceptions `write_chunky` can raise. */
  datatype WriteError =
    | TooManyChunkColumns  // the ValueError for more chunk columns than image dimensions
    | ZeroChunkSize        // a followed chunk size of 0 makes the grid size non-finite
    | MissingScale         // `chunk_scale` has fewer entries than there are chunk columns
    | EmptyQuery           // no chunk columns: pandas refuses the empty query string

  /**
   * `build_accesor_substring(dim, left, right)`: the query text
   * `dim >= left and dim < right`, as the predicate it denotes.
   */
  predicate AccessorHolds(v: int, lower: int, upper: int) {
    lower <= v && v < upper
  }

  /**
   * Bounds of consecutive widths partition the line: a value satisfies the
   * accessor of index `idx` exactly when `idx` is its unit index, two
   * distinct indices never both hold, and every value satisfies the
   * accessor of some index (adjacent bounds leave no gap).
   */
  lemma {:induction false} AccessorPartition(v: int, idx: int, other: int, w: int)
    requires w > 0
    ensures AccessorHolds(v, idx * w, (idx + 1) * w) <==> FloorDiv(v, w) == idx
    ensures idx != other ==> !(AccessorHolds(v, idx * w, (idx + 1) * w) && AccessorHolds(v, other * w, (other + 1) * w))
    ensures AccessorHolds(v, FloorDiv(v, w) * w, (FloorDiv(v, w) + 1) * w)
  {
    UnitMembership(v, idx, w);
    UnitMembership(v, other, w);
    UnitMembership(v, FloorDiv(v, w), w);
  }

  /** All entries positive. */
  predicate PositiveSizes(s: seq<nat>) {
    forall i :: 0 <= i < |s| ==> s[i] > 0
  }

  /**
   * `chunk_scale` as the writer uses it: the given scale, or one 1 per chunk
   * column when it is omitted or empty (Python treats both as false).
   */
  function EffectiveScale(chunkScale: Option<seq<int>>, k: nat): (s: seq<int>)
    ensures chunkScale.Some? && chunkScale.value != [] ==> s == chunkScale.value
    ensures chunkScale == None || chunkScale == Some([]) ==> |s| == k && forall i :: 0 <= i < k ==> s[i] == 1
  {
    if chunkScale.Some? && chunkScale.value != [] then chunkScale.value else seq(k, _ => 1)
  }

  /** `ceil(extent / size)`: the fewest chunks of `size` that cover `extent`. */
  function ChunkCount(extent: nat, size: nat): (n: nat)
    requires size > 0
    ensures extent <= n * size < extent + size
  {
    var q := CeilDiv(extent, size);
    assert q >= 0 by {
      if q < 0 { MulStep(q, 0, size); }
    }
    q
  }

  /** `np.ceil(follow_shape / follow_chunksize)`: the grid size in chunks, per followed dimension. */
  function FollowChunks(shape: seq<nat>, size: seq<nat>): (n: seq<nat>)
    requires |shape| == |size| && PositiveSizes(size)
    ensures |n| == |shape|
    ensures forall i :: 0 <= i < |n| ==> shape[i] <= n[i] * size[i] < shape[i] + size[i]
  {
    seq(|shape|, i requires 0 <= i < |shape| => ChunkCount(shape[i], size[i]))
  }

  /** The metadata document the writer records. */
  function WriterMeta(imageShape: seq<nat>, imageChunksize: seq<nat>, k: nat, chunkScale: Option<seq<int>>): (m: Meta)
    requires k <= |imageShape| && k <= |imageChunksize|
    requires PositiveSizes(imageChunksize[..k])
    ensures m.imageShape == imageShape && m.imageChunksize == imageChunksize
    ensures |m.followShape| == |m.followChunksize| == |m.followChunks| == k
    ensures forall i :: 0 <= i < k ==> m.followShape[i] == imageShape[i] && m.followChunksize[i] == imageChunksize[i]
    ensures forall i :: 0 <= i < k ==>
      imageShape[i] <= m.followChunks[i] * imageChunksize[i] < imageShape[i] + imageChunksize[i]
    ensures m.chunkScale == EffectiveScale(chunkScale, k)
  {
    var followShape := imageShape[..k];
    var followChunksize := imageChunksize[..k];
    Meta(imageShape, imageChunksize, FollowChunks(followShape, followChunksize),
         followShape, followChunksize, EffectiveScale(chunkScale, k))
  }

  /** `[range(0, int(x)) for x in follow_chunks]`: the ranges of the whole grid. */
  function GridRanges(chunks: seq<nat>): (rs: seq<Range>)
    ensures |rs| == |chunks|
  {
    seq(|chunks|, i requires 0 <= i < |chunks| => Range(0, chunks[i]))
  }

  /** The cells of the grid recorded in `m`. */
  predicate InGrid(m: Meta, c: seq<int>) {
    InBox(c, GridRanges(m.followChunks))
  }

  /**
   * The coordinate-space bounds of cell `idx`, one per chunk column:
   * `[idx*size*scale, (idx+1)*size*scale)`.
   */
  function CellBounds(m: Meta, idx: seq<int>): (b: seq<Range>)
    requires |idx| <= |m.followChunksize| && |idx| <= |m.chunkScale|
    ensures |b| == |idx|
  {
    seq(|idx|, i requires 0 <= i < |idx| =>
      Range(idx[i] * m.followChunksize[i] * m.chunkScale[i],
            (idx[i] + 1) * m.followChunksize[i] * m.chunkScale[i]))
  }

  /** The row satisfies the accessor of every chunk column (the joined query string). */
  predicate Selected<P>(r: Row<P>, bounds: seq<Range>) {
    |r.key| == |bounds| &&
    forall i :: 0 <= i < |bounds| ==> AccessorHolds(r.key[i], bounds[i].lo, bounds[i].hi)
  }

  /** `df.query(accessor).sort_values(by=chunk_columns)`: what the writer stores for one cell. */
  function CellRows<P(==)>(df: seq<Row<P>>, bounds: seq<Range>): seq<Row<P>> {
    var picked := Filter(df, (r: Row<P>) => Selected(r, bounds));
    SortRows(picked, |bounds|)
  }

  /**
   * A cell holds every occurrence of each row inside its bounds, none of the
   * others, sorted by the chunk columns.
   */
  lemma CellRowsContents<P>(df: seq<Row<P>>, bounds: seq<Range>, r: Row<P>)
    ensures multiset(CellRows(df, bounds))[r] == if Selected(r, bounds) then multiset(df)[r] else 0
    ensures Sorted(CellRows(df, bounds))
  {
    FilterCount(df, (x: Row<P>) => Selected(x, bounds), r);
  }

  /**
   * A grid whose cells partition the coordinate space: the followed sizes
   * are positive, and there is a positive scale for every chunk column.
   */
  ghost predicate Partitioning(m: Meta) {
    && |m.followChunksize| == |m.followChunks|
    && |m.chunkScale| >= |m.followChunks|
    && forall i :: 0 <= i < |m.followChunks| ==> m.followChunksize[i] > 0 && m.chunkScale[i] > 0
  }

  /** The extent of one cell along chunk column i, in column units. */
  function CellWidth(m: Meta, i: nat): int
    requires i < |m.followChunksize| && i < |m.chunkScale|
  {
    m.followChunksize[i] * m.chunkScale[i]
  }

  /** The cell a row's chunk-column values fall in: the unit index per column. */
  function CellOf(m: Meta, key: seq<int>): (c: seq<int>)
    requires Partitioning(m) && |key| == |m.followChunks|
    ensures |c| == |key|
  {
    seq(|key|, i requires 0 <= i < |key| => FloorDiv(key[i], CellWidth(m, i)))
  }

  /** The row's values lie in `[0, follow_chunks*size*scale)` for every chunk column. */
  ghost predicate InCoveredRange(m: Meta, key: seq<int>)
    requires Partitioning(m)
  {
    |key| == |m.followChunks| &&
    forall i :: 0 <= i < |key| ==> 0 <= key[i] < m.followChunks[i] * CellWidth(m, i)
  }

  /** A row is selected for cell c exactly when c is the cell of its values. */
  lemma {:induction false} SelectedIffCellOf<P>(m: Meta, r: Row<P>, c: seq<int>)
    requires Partitioning(m) && |c| == |m.followChunks|
    ensures Selected(r, CellBounds(m, c)) <==> |r.key| == |c| && CellOf(m, r.key) == c
  {
    var b := CellBounds(m, c);
    if |r.key| == |c| {
      var co := CellOf(m, r.key);
      forall i | 0 <= i < |c|
        ensures AccessorHolds(r.key[i], b[i].lo, b[i].hi) <==> co[i] == c[i]
      {
        var w := CellWidth(m, i);
        assert b[i].lo == c[i] * w;
        assert b[i].hi == (c[i] + 1) * w;
        UnitMembership(r.key[i], c[i], w);
      }
      if Selected(r, b) {
        assert forall i :: 0 <= i < |c| ==> co[i] == c[i];
      }
    }
  }

  /** The cell of a row lies in the grid exactly when its values lie in the covered range. */
  lemma {:induction false} CellOfInGrid(m: Meta, key: seq<int>)
    requires Partitioning(m) && |key| == |m.followChunks|
    ensures InGrid(m, CellOf(m, key)) <==> InCoveredRange(m, key)
  {
    var co := CellOf(m, key);
    forall i | 0 <= i < |key|
      ensures (0 <= co[i] < m.followChunks[i]) <==> (0 <= key[i] < m.followChunks[i] * CellWidth(m, i))
    {
      UnitIndexInRange(key[i], m.followChunks[i], CellWidth(m, i));
    }
  }

  /**
   * A row whose values lie in the covered range is selected by exactly one
   * cell of the grid, its `CellOf`; any other row is selected by none.
   */
  lemma {:induction false} RowLandsInOneCell<P>(m: Meta, r: Row<P>)
    requires Partitioning(m)
    ensures InCoveredRange(m, r.key) ==>
      InGrid(m, CellOf(m, r.key)) && Selected(r, CellBounds(m, CellOf(m, r.key)))
    ensures forall c :: InGrid(m, c) && Selected(r, CellBounds(m, c)) ==>
      InCoveredRange(m, r.key) && c == CellOf(m, r.key)
  {
    if |r.key| == |m.followChunks| {
      CellOfInGrid(m, r.key);
      SelectedIffCellOf(m, r, CellOf(m, r.key));
    }
    forall c | InGrid(m, c) && Selected(r, CellBounds(m, c))
      ensures InCoveredRange(m, r.key) && c == CellOf(m, r.key)
    {
      SelectedIffCellOf(m, r, c);
      CellOfInGrid(m, r.key);
    }
  }

  /** Two distinct cells never select the same row. */
  lemma CellsDisjoint<P>(m: Meta, r: Row<P>, c: seq<int>, c': seq<int>)
    requires Partitioning(m) && |c| == |c'| == |m.followChunks|
    requires Selected(r, CellBounds(m, c)) && Selected(r, CellBounds(m, c'))
    ensures c == c'
  {
    SelectedIffCellOf(m, r, c);
    SelectedIffCellOf(m, r, c');
  }

  /** Some cell of the grid has this path. */
  ghost predicate IsCellFile(root: string, m: Meta, p: seq<string>) {
    exists c :: InGrid(m, c) && |c| >= 1 && ChunkFile(root, c) == p
  }

  /**
   * The files after a complete write: every grid cell's file holds that
   * cell's rows, the only new paths are cell files, and files that are not
   * cell files are untouched.
   */
  ghost predicate WrittenGrid<P>(root: string, before: Files<P>, after: Files<P>, df: seq<Row<P>>, m: Meta) {
    && CellsPresent(root, after, df, m)
    && (forall p :: p in after ==> p in before || IsCellFile(root, m, p))
    && (forall p :: p in before && !IsCellFile(root, m, p) ==> p in after && after[p] == before[p])
  }

  /** Every grid cell's file exists and holds that cell's rows. */
  ghost predicate CellsPresent<P>(root: string, after: Files<P>, df: seq<Row<P>>, m: Meta) {
    forall c :: InGrid(m, c) ==>
      && 1 <= |c| && |c| <= |m.followChunksize| && |c| <= |m.chunkScale|
      && ChunkFile(root, c) in after
      && after[ChunkFile(root, c)] == CellRows(df, CellBounds(m, c))
  }

  /** The first n cells of `cells` hold their rows in `after`. */
  ghost predicate CellsStored<P>(root: string, after: Files<P>, df: seq<Row<P>>, m: Meta, cells: seq<seq<int>>, n: nat)
  {
    && n <= |cells|
    && forall j :: 0 <= j < n ==>
         && 1 <= |cells[j]| && |cells[j]| <= |m.followChunksize| && |cells[j]| <= |m.chunkScale|
         && ChunkFile(root, cells[j]) in after
         && after[ChunkFile(root, cells[j])] == CellRows(df, CellBounds(m, cells[j]))
  }

  /** Every path of `after` was in `before` or is the file of one of the first n cells. */
  ghost predicate OnlyCellsAdded<P>(root: string, before: Files<P>, after: Files<P>, cells: seq<seq<int>>, n: nat)
    requires n <= |cells|
  {
    forall p :: p in after ==> p in before || exists j :: 0 <= j < n && 1 <= |cells[j]| && ChunkFile(root, cells[j]) == p
  }

  /** Paths of `before` that are not files of the first n cells are unchanged. */
  ghost predicate OthersKept<P>(root: string, before: Files<P>, after: Files<P>, cells: seq<seq<int>>, n: nat)
    requires n <= |cells|
  {
    forall p :: p in before && (forall j :: 0 <= j < n && 1 <= |cells[j]| ==> ChunkFile(root, cells[j]) != p) ==>
      p in after && after[p] == before[p]
  }

  /** After the first n cells of `cells` are written. */
  ghost predicate WrittenPrefix<P>(root: string, before: Files<P>, after: Files<P>, df: seq<Row<P>>, m: Meta,
                                   cells: seq<seq<int>>, n: nat)
  {
    && CellsStored(root, after, df, m, cells, n)
    && OnlyCellsAdded(root, before, after, cells, n)
    && OthersKept(root, before, after, cells, n)
  }

  lemma CellsStoredStep<P>(root: string, after: Files<P>, df: seq<Row<P>>, m: Meta, cells: seq<seq<int>>, n: nat)
    requires CellsStored(root, after, df, m, cells, n)
    requires n < |cells|
    requires 1 <= |cells[n]| && |cells[n]| <= |m.followChunksize| && |cells[n]| <= |m.chunkScale|
    ensures CellsStored(root, after[ChunkFile(root, cells[n]) := CellRows(df, CellBounds(m, cells[n]))], df, m, cells, n + 1)
  {
    var file := ChunkFile(root, cells[n]);
    forall j | 0 <= j < n && ChunkFile(root, cells[j]) == file ensures cells[j] == cells[n] {
      ChunkFileInjective(root, cells[j], cells[n]);
    }
  }

  lemma OnlyCellsAddedStep<P>(root: string, before: Files<P>, after: Files<P>, cells: seq<seq<int>>, n: nat, rows: seq<Row<P>>)
    requires n < |cells| && 1 <= |cells[n]|
    requires OnlyCellsAdded(root, before, after, cells, n)
    ensures OnlyCellsAdded(root, before, after[ChunkFile(root, cells[n]) := rows], cells, n + 1)
  {
  }

  lemma OthersKeptStep<P>(root: string, before: Files<P>, after: Files<P>, cells: seq<seq<int>>, n: nat, rows: seq<Row<P>>)
    requires n < |cells| && 1 <= |cells[n]|
    requires OthersKept(root, before, after, cells, n)
    ensures OthersKept(root, before, after[ChunkFile(root, cells[n]) := rows], cells, n + 1)
  {
  }

  /** Writing cell n keeps the first n cells written and adds cell n. */
  lemma WrittenPrefixStep<P>(root: string, before: Files<P>, after: Files<P>, df: seq<Row<P>>, m: Meta,
                             cells: seq<seq<int>>, n: nat)
    requires WrittenPrefix(root, before, after, df, m, cells, n)
    requires n < |cells|
    requires 1 <= |cells[n]| && |cells[n]| <= |m.followChunksize| && |cells[n]| <= |m.chunkScale|
    ensures WrittenPrefix(root, before,
                          after[ChunkFile(root, cells[n]) := CellRows(df, CellBounds(m, cells[n]))],
                          df, m, cells, n + 1)
  {
    var rows := CellRows(df, CellBounds(m, cells[n]));
    CellsStoredStep(root, after, df, m, cells, n);
    OnlyCellsAddedStep(root, before, after, cells, n, rows);
    OthersKeptStep(root, before, after, cells, n, rows);
  }

  /** Once every enumerated cell of the grid is written, the grid is written. */
  lemma WrittenPrefixDone<P>(root: string, before: Files<P>, after: Files<P>, df: seq<Row<P>>, m: Meta)
    requires WrittenPrefix(root, before, after, df, m, Product(GridRanges(m.followChunks)),
                           |Product(GridRanges(m.followChunks))|)
    ensures WrittenGrid(root, before, after, df, m)
  {
    var grid := GridRanges(m.followChunks);
    var cells := Product(grid);
    ProductInBox(grid);
    forall c | InGrid(m, c) ensures
        && 1 <= |c| && |c| <= |m.followChunksize| && |c| <= |m.chunkScale|
        && ChunkFile(root, c) in after
        && after[ChunkFile(root, c)] == CellRows(df, CellBounds(m, c))
    {
      ProductMembership(grid, c);
      var j :| 0 <= j < |cells| && cells[j] == c;
    }
    forall p | p in after ensures p in before || IsCellFile(root, m, p) {
      if p !in before {
        var j :| 0 <= j < |cells| && 1 <= |cells[j]| && ChunkFile(root, cells[j]) == p;
        assert cells[j] in cells;
        assert InGrid(m, cells[j]);
      }
    }
    forall p | p in before && !IsCellFile(root, m, p) ensures p in after && after[p] == before[p] {
      forall j | 0 <= j < |cells| && 1 <= |cells[j]| ensures ChunkFile(root, cells[j]) != p {
        assert cells[j] in cells;
        assert InGrid(m, cells[j]);
      }
    }
  }

  /** The outcome `write_chunky` has on these arguments, in the order its checks are met. */
  function WriteOutcome(imageShape: seq<nat>, imageChunksize: seq<nat>, k: nat, chunkScale: Option<seq<int>>): Outcome<WriteError>
    requires k <= |imageShape| ==> k <= |imageChunksize|
  {
    if k > |imageShape| then Fail(TooManyChunkColumns)
    else if !PositiveSizes(imageChunksize[..k]) then Fail(ZeroChunkSize)
    else
      var m := WriterMeta(imageShape, imageChunksize, k, chunkScale);
      if Volume(GridRanges(m.followChunks)) == 0 then Pass
      else if |m.chunkScale| < k then Fail(MissingScale)
      else if k == 0 then Fail(EmptyQuery)
      else Pass
  }

  /**
   * `write_chunky(path, df, image_shape, image_chunksize, chunk_columns,
   * chunk_scale)`. Returns the outcome, the metadata document written at the
   * root (None when none is written) and the chunk files afterwards.
   */
  method WriteChunky<P(==)>(
    path: string, files: Files<P>, df: seq<Row<P>>,
    imageShape: seq<nat>, imageChunksize: seq<nat>,
    chunkColumns: seq<string>, chunkScale: Option<seq<int>>)
    returns (r: Outcome<WriteError>, meta: Option<Meta>, files': Files<P>)
    requires |chunkColumns| <= |imageShape| ==> |chunkColumns| <= |imageChunksize|
    ensures r == WriteOutcome(imageShape, imageChunksize, |chunkColumns|, chunkScale)
    ensures meta.Some? <==> |chunkColumns| <= |imageShape| && PositiveSizes(imageChunksize[..|chunkColumns|])
    ensures meta.Some? ==> meta.value == WriterMeta(imageShape, imageChunksize, |chunkColumns|, chunkScale)
    ensures r.Fail? ==> files' == files
    ensures r == Pass ==> meta.Some? && WrittenGrid(path, files, files', df, meta.value)
  {
    var k := |chunkColumns|;
    if k > |imageShape| {
      return Fail(TooManyChunkColumns), None, files;
    }
    var scale := EffectiveScale(chunkScale, k);
    var followShape := imageShape[..k];
    var followChunksize := imageChunksize[..k];
    if !PositiveSizes(followChunksize) {
      return Fail(ZeroChunkSize), None, files;
    }
    var followChunks := FollowChunks(followShape, followChunksize);
    var m := Meta(imageShape, imageChunksize, followChunks, followShape, followChunksize, scale);
    assert m == WriterMeta(imageShape, imageChunksize, k, chunkScale);
    meta := Some(m);
    files' := files;

    var grid := GridRanges(followChunks);
    var cells := Product(grid);
    assert forall j :: 0 <= j < |cells| ==> |cells[j]| == k by {
      ProductInBox(grid);
      forall j | 0 <= j < |cells| ensures |cells[j]| == k {
        assert cells[j] in cells;
      }
    }
    ProductLength(grid);
    for n := 0 to |cells|
      invariant n > 0 ==> 1 <= k <= |scale|
      invariant n == 0 ==> files' == files
      invariant WrittenPrefix(path, files, files', df, m, cells, n)
    {
      if |scale| < k {
        return Fail(MissingScale), meta, files';
      }
      var bounds := CellBounds(m, cells[n]);
      if k == 0 {
        return Fail(EmptyQuery), meta, files';
      }
      var rows := CellRows(df, bounds);
      WrittenPrefixStep(path, files, files', df, m, cells, n);
      files' := files'[ChunkFile(path, cells[n]) := rows];
    }
    WrittenPrefixDone(path, files, files', df, m);
    r := Pass;
  }
}
