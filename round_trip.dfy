/**
 * What the writer and the reader promise together: the reader enumerates
 * the writer's grid, a query returns exactly the rows of the cells it
 * touches, and a full-range query gives back every row of the table that
 * lies in the covered range.
 */
module RoundTrip {
  import opened Outcomes
  import opened GridMath
  import opened Cartesian
  import opened Table
  import opened Layout
  import opened ChunkyWrite
  import opened ChunkyRead

  /** `reader[:, :, ..., :]`: an open slice for every image dimension. */
  function FullSubscript(d: nat): (s: seq<Key>)
    ensures |s| == d
  {
    seq(d, _ => Slice(None, None))
  }

  /** The arguments for which `write_chunky` records its metadata. */
  ghost predicate WriterArgs(imageShape: seq<nat>, imageChunksize: seq<nat>, k: nat) {
    k <= |imageShape| && k <= |imageChunksize| && PositiveSizes(imageChunksize[..k])
  }

  /**
   * On the writer's metadata, an open query yields for every followed
   * dimension the range [0, follow_chunks[i]): the reader enumerates exactly
   * the writer's grid.
   */
  lemma {:induction false} FullQueryEnumeratesGrid(imageShape: seq<nat>, imageChunksize: seq<nat>, k: nat,
                                                   chunkScale: Option<seq<int>>)
    requires WriterArgs(imageShape, imageChunksize, k)
    ensures var m := WriterMeta(imageShape, imageChunksize, k, chunkScale);
      var full := FullSubscript(|m.imageShape|);
      ZipLength(|m.imageChunksize|, |full|, |m.followShape|) == k &&
      QueryRanges(m.imageChunksize, full, m.followShape, k) == Ok(GridRanges(m.followChunks))
  {
    var m := WriterMeta(imageShape, imageChunksize, k, chunkScale);
    var full := FullSubscript(|m.imageShape|);
    QueryRangesSpec(m.imageChunksize, full, m.followShape, k);
    forall i | 0 <= i < k
      ensures DimRange(m.imageChunksize[i], full[i], m.followShape[i], i) == Ok(Range(0, m.followChunks[i]))
    {
      assert imageChunksize[..k][i] == imageChunksize[i];
      var size := m.imageChunksize[i];
      FloorDivUnique(0, size, 0);
      CeilDivUnique(m.followShape[i], size, m.followChunks[i]);
    }
    var rs := QueryRanges(m.imageChunksize, full, m.followShape, k).value;
    assert rs == GridRanges(m.followChunks);
  }

  /** One written cell holds a row as often as the table does when it is the row's cell, else never. */
  lemma CellCount<P>(df: seq<Row<P>>, m: Meta, c: seq<int>, r: Row<P>)
    requires Partitioning(m) && |c| == |m.followChunks|
    ensures multiset(CellRows(df, CellBounds(m, c)))[r] ==
      if |r.key| == |m.followChunks| && CellOf(m, r.key) == c then multiset(df)[r] else 0
  {
    CellRowsContents(df, CellBounds(m, c), r);
    SelectedIffCellOf(m, r, c);
  }

  /**
   * Counting the rows gathered from a list of distinct cells: when each
   * cell's chunk holds `r` `n` times if the cell is `co` and never
   * otherwise, the concatenation holds it `n` times if `co` is listed and
   * never otherwise.
   */
  lemma {:induction false} GatherCount<T>(cells: seq<seq<int>>, chunks: seq<seq<T>>, r: T, co: seq<int>, n: nat)
    requires |chunks| == |cells| && multiset(cells)[co] <= 1
    requires forall j :: 0 <= j < |cells| ==> multiset(chunks[j])[r] == if cells[j] == co then n else 0
    ensures multiset(Concat(chunks))[r] == if co in cells then n else 0
    decreases |cells|
  {
    if cells != [] {
      var rest, tail := cells[1..], chunks[1..];
      assert cells == [cells[0]] + rest;
      assert multiset(cells)[co] == (if cells[0] == co then 1 else 0) + multiset(rest)[co];
      assert forall j :: 0 <= j < |rest| ==> rest[j] == cells[j + 1] && tail[j] == chunks[j + 1];
      GatherCount(rest, tail, r, co, n);
      assert Concat(chunks) == chunks[0] + Concat(tail);
      assert multiset(Concat(chunks))[r] == multiset(chunks[0])[r] + multiset(Concat(tail))[r];
      if co == cells[0] {
        assert co !in rest;
      } else {
        assert co in cells <==> co in rest;
      }
    }
  }

  /**
   * A query whose cells all lie in the written grid returns each row as
   * often as the table holds it when its cell is among them, and never
   * otherwise.
   */
  lemma {:induction false} QueryOverWrittenCells<P>(root: string, files: Files<P>,
                                                    df: seq<Row<P>>, m: Meta, rs: seq<Range>,
                                                    q: Result<Option<seq<Row<P>>>, ReadError>)
    requires Partitioning(m) && |m.followChunks| >= 1
    requires CellsPresent(root, files, df, m)
    requires |rs| == |m.followChunks|
    requires forall i :: 0 <= i < |rs| ==> 0 <= rs[i].lo && rs[i].hi <= m.followChunks[i]
    requires q == match LoadChunks(files, root, Product(rs))
                  case Err(e) => Err(e)
                  case Ok(chunks) => Ok(Prepended(chunks))
    ensures q.Ok?
    ensures forall r: Row<P> ::
              multiset(q.value.GetOr([]))[r] ==
              if |r.key| == |m.followChunks| && InBox(CellOf(m, r.key), rs) then multiset(df)[r] else 0
  {
    var k := |m.followChunks|;
    LoadWrittenCells(root, files, df, m, rs);
    var chunks := LoadChunks(files, root, Product(rs)).value;
    PrependedIsReversedConcat(chunks);
    var result := q.value.GetOr([]);
    assert multiset(result) == multiset(Concat(chunks)) by {
      if chunks != [] {
        ConcatReverseMultiset(chunks);
      }
    }
    forall r: Row<P> ensures multiset(result)[r] ==
      if |r.key| == k && InBox(CellOf(m, r.key), rs) then multiset(df)[r] else 0
    {
      GatherWritten(df, m, rs, chunks, r);
    }
  }

  /** Loading the cells of a box inside the written grid yields each cell's stored rows. */
  lemma LoadWrittenCells<P>(root: string, files: Files<P>, df: seq<Row<P>>, m: Meta, rs: seq<Range>)
    requires Partitioning(m) && |m.followChunks| >= 1
    requires CellsPresent(root, files, df, m)
    requires |rs| == |m.followChunks|
    requires forall i :: 0 <= i < |rs| ==> 0 <= rs[i].lo && rs[i].hi <= m.followChunks[i]
    ensures LoadChunks(files, root, Product(rs)).Ok?
    ensures var chunks := LoadChunks(files, root, Product(rs)).value;
      && |chunks| == |Product(rs)|
      && forall j :: 0 <= j < |chunks| ==>
           |Product(rs)[j]| == |m.followChunks| && chunks[j] == CellRows(df, CellBounds(m, Product(rs)[j]))
  {
    var k := |m.followChunks|;
    var cells := Product(rs);
    ProductInBox(rs);
    forall j | 0 <= j < |cells|
      ensures |cells[j]| == k && InGrid(m, cells[j])
    {
      assert cells[j] in cells;
    }
    LoadChunksPresent(files, root, cells);
  }

  /** The rows gathered from the written cells of a box of the grid. */
  lemma GatherWritten<P>(df: seq<Row<P>>, m: Meta, rs: seq<Range>, chunks: seq<seq<Row<P>>>, r: Row<P>)
    requires Partitioning(m) && |rs| == |m.followChunks|
    requires |chunks| == |Product(rs)|
    requires forall j :: 0 <= j < |chunks| ==>
      |Product(rs)[j]| == |m.followChunks| && chunks[j] == CellRows(df, CellBounds(m, Product(rs)[j]))
    ensures multiset(Concat(chunks))[r] ==
      if |r.key| == |m.followChunks| && InBox(CellOf(m, r.key), rs) then multiset(df)[r] else 0
  {
    var k, cells := |m.followChunks|, Product(rs);
    var co := if |r.key| == k then CellOf(m, r.key) else [];
    var n := if |r.key| == k then multiset(df)[r] else 0;
    forall j | 0 <= j < |cells|
      ensures multiset(chunks[j])[r] == if cells[j] == co then n else 0
    {
      CellCount(df, m, cells[j], r);
    }
    ProductCount(rs, co);
    GatherCount(cells, chunks, r, co, n);
  }

  /**
   * Round trip: after a successful write, an open query on the metadata the
   * writer recorded returns every row of the table whose values lie in
   * `[0, follow_chunks*size*scale)`, each as often as the table holds it,
   * and no other row.
   */
  lemma {:induction false} FullQueryReturnsCoveredRows<P>(root: string, before: Files<P>, files: Files<P>,
                                                          df: seq<Row<P>>, imageShape: seq<nat>,
                                                          imageChunksize: seq<nat>, k: nat,
                                                          chunkScale: Option<seq<int>>)
    requires WriterArgs(imageShape, imageChunksize, k) && k >= 1
    requires Partitioning(WriterMeta(imageShape, imageChunksize, k, chunkScale))
    requires WrittenGrid(root, before, files, df, WriterMeta(imageShape, imageChunksize, k, chunkScale))
    ensures var m := WriterMeta(imageShape, imageChunksize, k, chunkScale);
      var q := Query(m.imageShape, m.imageChunksize, m.followShape, root, FullSubscript(|m.imageShape|), files);
      q.Ok? && multiset(q.value.GetOr([])) == multiset(Filter(df, (r: Row<P>) => InCoveredRange(m, r.key)))
  {
    var m := WriterMeta(imageShape, imageChunksize, k, chunkScale);
    var full := FullSubscript(|m.imageShape|);
    var q := Query(m.imageShape, m.imageChunksize, m.followShape, root, full, files);
    FullQueryEnumeratesGrid(imageShape, imageChunksize, k, chunkScale);
    var rs := GridRanges(m.followChunks);
    QueryViaRanges(m.imageShape, m.imageChunksize, m.followShape, root, full, files, rs);
    QueryOverWrittenCells(root, files, df, m, rs, q);
    var result := q.value.GetOr([]);
    var kept := Filter(df, (r: Row<P>) => InCoveredRange(m, r.key));
    forall r: Row<P> ensures multiset(result)[r] == multiset(kept)[r] {
      FilterCount(df, (x: Row<P>) => InCoveredRange(m, x.key), r);
      if |r.key| == k {
        CellOfInGrid(m, r.key);
      }
    }
    MultisetExtensionality(multiset(result), multiset(kept));
  }

  /**
   * Query-to-cell correctness: for a query whose followed slices lie in the
   * image (`0 <= start`, `stop <= follow_shape`), the reader returns each
   * row as often as the table holds it when the row's cell is among the
   * cells the query touches, and never otherwise.
   */
  lemma {:induction false} QueryInsideImage<P>(root: string, before: Files<P>, files: Files<P>,
                                               df: seq<Row<P>>, imageShape: seq<nat>,
                                               imageChunksize: seq<nat>, k: nat,
                                               chunkScale: Option<seq<int>>, subscript: seq<Key>)
    requires WriterArgs(imageShape, imageChunksize, k) && k >= 1
    requires Partitioning(WriterMeta(imageShape, imageChunksize, k, chunkScale))
    requires WrittenGrid(root, before, files, df, WriterMeta(imageShape, imageChunksize, k, chunkScale))
    requires |subscript| == |imageShape|
    requires forall i :: 0 <= i < k ==>
      subscript[i].Slice? && 0 <= subscript[i].start.GetOr(0) && subscript[i].stop.GetOr(imageShape[i]) <= imageShape[i]
    ensures var m := WriterMeta(imageShape, imageChunksize, k, chunkScale);
      var ranges := QueryRanges(m.imageChunksize, subscript, m.followShape, k);
      var q := Query(m.imageShape, m.imageChunksize, m.followShape, root, subscript, files);
      && ZipLength(|m.imageChunksize|, |subscript|, |m.followShape|) == k
      && ranges.Ok? && q.Ok?
      && forall r: Row<P> ::
           multiset(q.value.GetOr([]))[r] ==
           if |r.key| == k && InBox(CellOf(m, r.key), ranges.value) then multiset(df)[r] else 0
  {
    var m := WriterMeta(imageShape, imageChunksize, k, chunkScale);
    QueryRangesSpec(m.imageChunksize, subscript, m.followShape, k);
    forall i | 0 <= i < k ensures DimRange(m.imageChunksize[i], subscript[i], m.followShape[i], i).Ok? {
      assert imageChunksize[..k][i] == imageChunksize[i];
    }
    var rs := QueryRanges(m.imageChunksize, subscript, m.followShape, k).value;
    forall i | 0 <= i < k ensures 0 <= rs[i].lo && rs[i].hi <= m.followChunks[i] {
      var size := m.imageChunksize[i];
      assert imageChunksize[..k][i] == size;
      var start := subscript[i].start.GetOr(0);
      var stop := subscript[i].stop.GetOr(m.followShape[i]);
      FloorDivUnique(0, size, 0);
      FloorDivMonotonic(0, start, size);
      CeilDivMonotonic(stop, imageShape[i], size);
      CeilDivUnique(imageShape[i], size, m.followChunks[i]);
    }
    var q := Query(m.imageShape, m.imageChunksize, m.followShape, root, subscript, files);
    QueryViaRanges(m.imageShape, m.imageChunksize, m.followShape, root, subscript, files, rs);
    QueryOverWrittenCells(root, files, df, m, rs, q);
  }

  /**
   * Every row whose pixel position `floor(value / scale)` lies inside the
   * query's slices, in every chunk column, is returned, as often as the
   * table holds it.
   */
  lemma {:induction false} QueryReturnsRowsInsideIt<P>(root: string, before: Files<P>, files: Files<P>,
                                                       df: seq<Row<P>>, imageShape: seq<nat>,
                                                       imageChunksize: seq<nat>, k: nat,
                                                       chunkScale: Option<seq<int>>, subscript: seq<Key>,
                                                       r: Row<P>)
    requires WriterArgs(imageShape, imageChunksize, k) && k >= 1
    requires Partitioning(WriterMeta(imageShape, imageChunksize, k, chunkScale))
    requires WrittenGrid(root, before, files, df, WriterMeta(imageShape, imageChunksize, k, chunkScale))
    requires |subscript| == |imageShape|
    requires forall i :: 0 <= i < k ==>
      subscript[i].Slice? && 0 <= subscript[i].start.GetOr(0) && subscript[i].stop.GetOr(imageShape[i]) <= imageShape[i]
    requires |r.key| == k
    requires forall i :: 0 <= i < k ==>
      var scale := WriterMeta(imageShape, imageChunksize, k, chunkScale).chunkScale[i];
      scale > 0 &&
      subscript[i].start.GetOr(0) <= FloorDiv(r.key[i], scale) < subscript[i].stop.GetOr(imageShape[i])
    ensures var m := WriterMeta(imageShape, imageChunksize, k, chunkScale);
      var q := Query(m.imageShape, m.imageChunksize, m.followShape, root, subscript, files);
      q.Ok? && multiset(q.value.GetOr([]))[r] == multiset(df)[r]
  {
    var m := WriterMeta(imageShape, imageChunksize, k, chunkScale);
    QueryInsideImage(root, before, files, df, imageShape, imageChunksize, k, chunkScale, subscript);
    QueryRangesSpec(m.imageChunksize, subscript, m.followShape, k);
    var rs := QueryRanges(m.imageChunksize, subscript, m.followShape, k).value;
    var c := CellOf(m, r.key);
    forall i | 0 <= i < k ensures rs[i].lo <= c[i] < rs[i].hi {
      var size := m.imageChunksize[i];
      assert imageChunksize[..k][i] == size;
      assert imageShape[..k][i] == imageShape[i];
      assert c[i] == FloorDiv(r.key[i], size * m.chunkScale[i]);
      ValueInRange(size, m.chunkScale[i], subscript[i], m.followShape[i], i, r.key[i]);
    }
  }

  /** A value whose pixel lies inside a slice has its cell index inside the slice's chunk range. */
  lemma ValueInRange(size: nat, scale: int, key: Key, shape: nat, dim: nat, v: int)
    requires size > 0 && scale > 0 && key.Slice?
    requires key.start.GetOr(0) <= FloorDiv(v, scale) < key.stop.GetOr(shape)
    ensures DimRange(size, key, shape, dim).Ok?
    ensures var r := DimRange(size, key, shape, dim).value;
      r.lo <= FloorDiv(v, size * scale) < r.hi
  {
    RangeCoversPixels(size, key, shape, dim, FloorDiv(v, scale));
    FloorDivNested(v, scale, size);
    assert scale * size == size * scale;
  }

  /**
   * A client of the two components: write the table, open a reader on the
   * metadata just written and ask for everything. When the write succeeds,
   * the answer holds exactly the table's rows in the covered range.
   */
  method WriteThenReadAll<P(==)>(path: string, files: Files<P>, df: seq<Row<P>>,
                                 imageShape: seq<nat>, imageChunksize: seq<nat>,
                                 chunkColumns: seq<string>, chunkScale: Option<seq<int>>)
    returns (written: Outcome<WriteError>, answer: Option<Result<Option<seq<Row<P>>>, ReadError>>)
    requires |chunkColumns| <= |imageShape| ==> |chunkColumns| <= |imageChunksize|
    requires (WriterArgs(imageShape, imageChunksize, |chunkColumns|) &&
              WriteOutcome(imageShape, imageChunksize, |chunkColumns|, chunkScale) == Pass) ==>
      Partitioning(WriterMeta(imageShape, imageChunksize, |chunkColumns|, chunkScale))
    ensures written == WriteOutcome(imageShape, imageChunksize, |chunkColumns|, chunkScale)
    ensures written.Fail? <==> answer.None?
    ensures written == Pass ==> WriterArgs(imageShape, imageChunksize, |chunkColumns|)
    ensures written == Pass ==>
      var m := WriterMeta(imageShape, imageChunksize, |chunkColumns|, chunkScale);
      answer.value.Ok? &&
      multiset(answer.value.value.GetOr([])) == multiset(Filter(df, (r: Row<P>) => InCoveredRange(m, r.key)))
  {
    var meta, stored;
    written, meta, stored := WriteChunky(path, files, df, imageShape, imageChunksize, chunkColumns, chunkScale);
    if written.Fail? {
      return written, None;
    }
    assert |chunkColumns| >= 1;
    var reader := new ChunkyReader(path, meta.value);
    var q := reader.GetItem(FullSubscript(|imageShape|), stored);
    FullQueryReturnsCoveredRows(path, files, stored, df, imageShape, imageChunksize, |chunkColumns|, chunkScale);
    answer := Some(q);
  }

  lemma MultisetExtensionality<T>(a: multiset<T>, b: multiset<T>)
    requires forall x :: a[x] == b[x]
    ensures a == b
  {
  }

  /**
   * The example script's arguments: image shape (2048, 2048, 20, 1, 1),
   * chunks (500, 500, 20, 1, 1), chunk columns x and y, scale [16, 16].
   * The grid is 5 by 5, a row at x=4000, y=500 lands in cell (0, 0), and the
   * corner cells are stored as `0/0.csv` and `4/4.csv`.
   */
  lemma ExampleWrite()
    ensures var m := WriterMeta([2048, 2048, 20, 1, 1], [500, 500, 20, 1, 1], 2, Some([16, 16]));
      && m.followShape == [2048, 2048] && m.followChunksize == [500, 500]
      && m.followChunks == [5, 5]
      && Volume(GridRanges(m.followChunks)) == 25
      && Partitioning(m)
      && CellWidth(m, 0) == 8000 && CellWidth(m, 1) == 8000
      && CellOf(m, [4000, 500]) == [0, 0]
  {
    var m := WriterMeta([2048, 2048, 20, 1, 1], [500, 500, 20, 1, 1], 2, Some([16, 16]));
    CeilDivUnique(2048, 500, 5);
    assert m.followChunks == [5, 5];
    FloorDivUnique(4000, 8000, 0);
    FloorDivUnique(500, 8000, 0);
    assert CellOf(m, [4000, 500]) == [0, 0];
    var grid := GridRanges(m.followChunks);
    assert grid == [Range(0, 5), Range(0, 5)];
    assert Volume(grid[1..]) == 5 * Volume(grid[2..]);
  }

  /** The example's first and last cells of its 5 by 5 grid and their files. */
  lemma ExamplePaths()
    ensures ChunkFile("data/chunkied", [0, 0]) == ["data/chunkied", "0", "0.csv"]
    ensures ChunkFile("data/chunkied", [4, 4]) == ["data/chunkied", "4", "4.csv"]
  {
    assert DigitChar(0) == '0' && DigitChar(4) == '4';
    assert IntToString(0) == "0" && IntToString(4) == "4";
    assert FileName(0) == "0.csv" && FileName(4) == "4.csv";
    assert DirNames([0]) == ["0"] && DirNames([4]) == ["4"];
    assert [0, 0][..1] == [0] && [4, 4][..1] == [4];
  }
}
