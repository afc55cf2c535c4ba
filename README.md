# chunky: a verified model of the chunked table writer and reader

`chunky` stores a table of points, such as localisation microscopy events,
as a directory tree that follows the chunk grid of a paired image. The
writer `write_chunky` takes some of the image's leading dimensions.
`chunk_columns` names the table columns that hold their coordinates, and
`chunk_scale` maps pixel space to column space. For every cell of the chunk
grid, the writer selects the rows whose coordinates fall into that cell's
half-open box. It sorts them by the chunk columns and stores them under
`<path>/<i0>/<i1>/.../<ik>.csv`. It also records a `meta.json` with the
image shape, the chunk size, the number of chunks per followed dimension,
the followed shape and chunk size, and the scale. The reader `ChunkyReader`
takes that metadata. Indexing it with a tuple of slices turns each slice
into a range of chunk indices: start index rounded down, stop index rounded
up. It then loads every chunk file of the range product and concatenates
them, each newly loaded chunk going in front.

The model is split into modules:

- `Outcomes` (outcomes.dfy): `Option`, `Result` and `Outcome` (pass or fail) values.
- `GridMath` (grid_math.dfy): floor and ceiling division by a positive chunk size, and Python's decimal `str(int)`.
- `Cartesian` (cartesian.dfy): `itertools.product` over integer ranges, in the order Python produces the tuples.
- `Table` (table.dfy): table rows, selection (`df.query`), sorting (`sort_values`), concatenation.
- `Layout` (layout.dfy): the metadata record and the chunk file paths. The directory tree is a map from path to stored rows.
- `ChunkyWrite` (write.dfy): `write_chunky`, an imperative method with a loop over the grid.
- `ChunkyRead` (read.dfy): the `ChunkyReader` class and its `__getitem__`, a method with two loops that is proved equal to a specification function.
- `RoundTrip` (round_trip.dfy): what a full-range read returns after a write, and the example of `example_write.py`.

A row is `Row(key, payload)`: `key[i]` is the row's value in `chunk_columns[i]`;
every other column is the opaque `payload`. The writer's and reader's
effects on disk are modelled on a `Files` map that the writer returns
updated and the reader consults.

At its edges the code behaves as follows, and the model follows it:

- The rows a write stores are those with `0 <= key[i] < follow_chunks[i] * chunksize[i] * scale[i]`. This is the whole grid, rounded up, and not only `follow_shape[i] * scale[i]`.
- The reader zips the chunk size, the subscript and `follow_shape`. So only the first `min` of their lengths subscript entries are checked to be slices; the rest are never looked at.
- `k == 0` chunk columns fails: the writer calls `df.query("")`, and the reader reads `accessor[-1]` of the empty tuple.
- A scale shorter than `k` fails (IndexError) only when the grid has at least one cell. A longer scale is accepted and its extra entries are unused.

## Model

| member | source | states |
|---|---|---|
| GridMath.FloorDiv | chunky/read.py:41 | the first chunk index `q` satisfies `q*size <= start < q*size + size` (math.floor of the quotient) |
| GridMath.CeilDiv | chunky/read.py:42 | the last chunk bound `q` satisfies `q*size - size < stop <= q*size` (math.ceil of the quotient) |
| GridMath.UnitIndexInRange | chunky/write.py:67-75 | a value lies in `[0, n*w)` exactly when its unit index lies in `[0, n)` |
| GridMath.IntToStringInjective | chunky/write.py:85-88 | the decimal `str` of chunk indices is injective, so distinct indices name distinct folders and files |
| Cartesian.ProductCount | chunky/write.py:67 | `itertools.product` of the ranges yields every tuple inside the box exactly once and no other tuple |
| Cartesian.ProductLength | chunky/write.py:67 | the product has as many tuples as the product of the range widths |
| Table.SortRows | chunky/write.py:83 | sorting keeps the same rows (a permutation) and orders them lexicographically by the chunk columns |
| Table.FilterCount | chunky/write.py:83 | the query keeps each row satisfying the condition with its multiplicity and drops every other row |
| Table.ConcatReverseMultiset | chunky/read.py:52-55 | concatenating the chunks in reverse order keeps every row of every chunk |
| Layout.ChunkFileComponents | chunky/write.py:85-88 | a cell's file path is the root, then the decimal `str` of each index but the last as a folder, then `<last>.csv` |
| Layout.ChunkFileInjective | chunky/write.py:85-88 | under one root, two cells share a file path only when they are the same cell |
| ChunkyWrite.AccessorPartition | chunky/write.py:9-10 | the accessor `[idx*w, (idx+1)*w)` holds exactly when `idx` is the value's floor index; distinct indices are disjoint and adjacent bounds leave no gap |
| ChunkyWrite.EffectiveScale | chunky/write.py:44 | a given non-empty scale is used as is; otherwise the scale is `k` ones |
| ChunkyWrite.ChunkCount | chunky/write.py:48 | the number of chunks `n` along a dimension is the ceiling `extent <= n*size < extent + size` |
| ChunkyWrite.WriterMeta | chunky/write.py:44-65 | the recorded followed shape and chunk size are the first `k` entries; follow_chunks is their ceiling quotient; the image shape and chunk size are recorded unchanged |
| ChunkyWrite.CellRowsContents | chunky/write.py:69-83 | a cell's stored rows are exactly the selected rows of the input (with multiplicity), sorted by the chunk columns |
| ChunkyWrite.SelectedIffCellOf | chunky/write.py:69-83 | under a positive scale, a row passes a cell's query exactly when that cell is the row's floor cell |
| ChunkyWrite.CellOfInGrid | chunky/write.py:67-75 | a row is in the covered range exactly when its floor cell is a cell of the grid |
| ChunkyWrite.RowLandsInOneCell | chunky/write.py:67-83 | every row in the covered range is stored in exactly one cell, and a row outside it in none |
| ChunkyWrite.CellsDisjoint | chunky/write.py:69-75 | the boxes of two distinct cells select no common row |
| ChunkyWrite.WriteOutcome | chunky/write.py:39-83 | the errors in the order the source raises them: too many chunk columns; a zero chunk size; an empty grid passes; a scale shorter than `k`; `k == 0` (an empty query) |
| ChunkyWrite.WriteChunky | chunky/write.py:13-88 | returns `WriteOutcome`; records the metadata exactly when the first two checks pass; leaves the files unchanged on failure; on success stores each grid cell's rows at its own path and changes no other path |
| ChunkyRead.ZipLength | chunky/read.py:33-35 | `zip` stops at the shortest of the three sequences |
| ChunkyRead.QueryRangesSpec | chunky/read.py:33-43 | the ranges succeed exactly when every zipped entry is a slice with a non-zero chunk size; each range is floor(start/size) to ceil(stop/size) with the defaults 0 and `follow_shape`; on failure the error is the first failing dimension's |
| ChunkyRead.RangeCoversPixels | chunky/read.py:38-43 | every pixel of a slice falls in a chunk of the computed range |
| ChunkyRead.RangeTouchesOnlyCoveredChunks | chunky/read.py:41-43 | every chunk of the computed range of a non-empty slice holds some pixel of the slice |
| ChunkyRead.EmptySliceRange | chunky/read.py:41-43 | an empty slice yields no chunk when its start lies on a chunk boundary and otherwise the one chunk holding that start |
| ChunkyRead.LoadChunksPresent | chunky/read.py:45-51 | when every chunk file exists, loading returns each file's rows in product order |
| ChunkyRead.LoadChunksMissing | chunky/read.py:47-51 | a missing chunk file makes loading fail |
| ChunkyRead.LoadChunksErrKind | chunky/read.py:45-51 | loading fails only with the empty-tuple error or a missing-file error |
| ChunkyRead.PrependedIsReversedConcat | chunky/read.py:52-57 | prepending each new chunk yields the chunks concatenated in reverse order, or None when there is no chunk |
| ChunkyRead.QueryArity | chunky/read.py:26-28 | a query fails with a shape mismatch exactly when the subscript's length differs from the image's rank |
| ChunkyRead.QueryIgnoresTrailingEntries | chunky/read.py:33-36 | subscript entries beyond the zipped length do not affect the result, even when they are not slices |
| ChunkyRead.ChunkyReader.constructor | chunky/read.py:15-23 | the reader keeps the table path, the metadata, and the image shape, chunk size and followed shape taken from it |
| ChunkyRead.ChunkyReader.SliceRanges | chunky/read.py:30-43 | the range loop returns exactly the ranges (or the first error) that the zipped-prefix specification assigns to the subscript |
| ChunkyRead.ChunkyReader.GetItem | chunky/read.py:25-57 | the loops compute exactly the query function of the reader's fields, the subscript and the files |
| RoundTrip.FullQueryEnumeratesGrid | chunky/read.py:33-45 | after a write, the full-range subscript yields one range per chunk column, `0` to follow_chunks, so the reader's product is the writer's grid |
| RoundTrip.FullQueryReturnsCoveredRows | chunky/read.py:25-57 | reading the full range after a successful write returns exactly the input rows in the covered range, each with its multiplicity |
| RoundTrip.QueryInsideImage | chunky/read.py:33-57 | a read of slices inside the image after a write finds every chunk file, so it succeeds |
| RoundTrip.QueryReturnsRowsInsideIt | chunky/read.py:38-55 | a written row whose scaled pixel lies inside the requested slices is returned by the read |
| RoundTrip.WriteThenReadAll | chunky/write.py:13-88 | a write followed by a full-range read fails exactly when the write fails, and otherwise returns the covered rows |
| RoundTrip.ExampleWrite | example_write.py:9-16 | for the example's shape, chunk size and scale 16: a 5 by 5 grid of 25 cells, each 8000 column units wide along both columns, and the point (4000, 500) in cell (0, 0) |
| RoundTrip.ExamplePaths | example_write.py:9-16 | the example's first and last cells are stored at `data/chunkied/0/0.csv` and `data/chunkied/4/4.csv` |

## Left out

- File system and formats: directory creation, `meta.json` serialisation, CSV writing and reading, and pandas' index column. The disk is a map from path to rows.
- `print`, the dask imports and `read_chunky`. `read_chunky` only calls the constructor.
- Loading `meta.json` in the constructor, and its missing-file error. The constructor takes the already decoded metadata.
- Floating point: shapes, chunk sizes, scales and coordinates are integers. The float results of `np.ceil` and of the scaled products (for example `inf` or `nan`) are not modelled.
- ChunkyWrite.WriteChunky: a zero chunk size fails before any metadata is recorded. The source writes `meta.json` first and then fails at `int(inf)`.
- ChunkyWrite.WriteChunky: requires `image_chunksize` to have at least `k` entries once the rank check passes. With fewer entries numpy either broadcasts a single entry over every followed dimension or raises; neither is modelled.
- Integer width: the cell bounds in chunky/write.py:71-72 are numpy `int64` products, which wrap around for very large indices, chunk sizes or scales; the model computes them on unbounded integers. The reader's quotients in chunky/read.py:41-42 are float divisions, exact only while the operands stay below 2^53; the model divides exactly.
- Layout.ChunkFileInjective: the root path is kept as one opaque component, so only cells under the same root are compared. `os.path.join` can give the same file for different roots and cells (root `a` with cell (0, 1) and root `a/0` with cell (1,)). Likewise `WrittenGrid`'s "every other path is unchanged" is about paths as modelled, a root followed by index components, and not about directories that other roots could name.
- Column names only count columns. Duplicate names, which Python's dict collapses, and missing columns are not modelled.
- Sort stability: the sorted cell is specified as a lexicographically sorted permutation. The order among equal keys is not specified.
- The slice step is ignored, as in the source. A subscript that is not a sequence is not modelled.
- ChunkyWrite.RowLandsInOneCell: assumes a positive scale, because a zero or negative scale makes every cell box empty (its lower bound reaches or passes its upper bound).
- ChunkyWrite.SelectedIffCellOf: assumes a positive scale, for the same reason.
- ChunkyWrite.CellsDisjoint: assumes a positive scale, for the same reason.
- RoundTrip.FullQueryReturnsCoveredRows: assumes a positive scale and `k >= 1`.
- RoundTrip.QueryInsideImage: assumes a positive scale and `k >= 1`.
- RoundTrip.QueryReturnsRowsInsideIt: assumes a positive scale and `k >= 1`.
- RoundTrip.WriteThenReadAll: assumes a positive scale when the write succeeds.
