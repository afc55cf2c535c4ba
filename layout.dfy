/**
 * The on-disk layout shared by the writer and the reader: the metadata
 * document at the dataset root and the nested path of each chunk file.
 */
module Layout {
  import opened GridMath
  import opened Table

  /**
   * The `meta.json` document: the image shape and chunk size as given, the
   * grid size in chunks, the followed prefixes and the chunk scale.
   */
  datatype Meta = Meta(
    imageShape: seq<nat>,
    imageChunksize: seq<nat>,
    followChunks: seq<nat>,
    followShape: seq<nat>,
    followChunksize: seq<nat>,
    chunkScale: seq<int>)

  /** The chunk files that exist, by full path (root first), with the rows each holds. */
  type Files<P> = map<seq<string>, seq<Row<P>>>

  /** The directory names `str(i)` for the leading indices, outermost first. */
  function DirNames(ks: seq<int>): (d: seq<string>)
    ensures |d| == |ks|
    decreases |ks|
  {
    if ks == [] then [] else [IntToString(ks[0])] + DirNames(ks[1..])
  }

  /** The directory name at depth `i` is `str` of the `i`-th index. */
  lemma {:induction false} DirNamesAt(ks: seq<int>, i: nat)
    requires i < |ks|
    ensures DirNames(ks)[i] == IntToString(ks[i])
    decreases i
  {
    if i > 0 {
      DirNamesAt(ks[1..], i - 1);
    }
  }

  /** The file name `<i>.csv` for the last index. */
  function FileName(i: int): string {
    IntToString(i) + ".csv"
  }

  /**
   * The path of the chunk file of cell `idx` under `root`: one directory per
   * index but the last, then the file named after the last index.
   */
  function ChunkFile(root: string, idx: seq<int>): (p: seq<string>)
    requires |idx| >= 1
    ensures |p| == |idx| + 1 && p[0] == root
  {
    [root] + DirNames(idx[..|idx| - 1]) + [FileName(idx[|idx| - 1])]
  }

  /**
   * Component by component: after the root come the decimal names of the
   * leading indices, in order, and the file `<last>.csv`.
   */
  lemma ChunkFileComponents(root: string, idx: seq<int>)
    requires |idx| >= 1
    ensures forall i :: 1 <= i < |idx| ==> ChunkFile(root, idx)[i] == IntToString(idx[i - 1])
    ensures ChunkFile(root, idx)[|idx|] == IntToString(idx[|idx| - 1]) + ".csv"
  {
    var lead := idx[..|idx| - 1];
    forall i | 1 <= i < |idx| ensures ChunkFile(root, idx)[i] == IntToString(idx[i - 1]) {
      DirNamesAt(lead, i - 1);
    }
  }

  lemma {:induction false} DirNamesInjective(a: seq<int>, b: seq<int>)
    requires DirNames(a) == DirNames(b)
    ensures a == b
  {
    forall i | 0 <= i < |a| ensures a[i] == b[i] {
      DirNamesAt(a, i);
      DirNamesAt(b, i);
      IntToStringInjective(a[i], b[i]);
    }
  }

  lemma {:induction false} FileNameInjective(a: int, b: int)
    requires FileName(a) == FileName(b)
    ensures a == b
  {
    var sa, sb := IntToString(a), IntToString(b);
    assert |sa| == |sb|;
    assert sa == FileName(a)[..|sa|];
    assert sb == FileName(b)[..|sb|];
    IntToStringInjective(a, b);
  }

  /** The directory names and the file name together determine the cell. */
  lemma NamesInjective(la: seq<int>, x: int, lb: seq<int>, y: int)
    requires DirNames(la) == DirNames(lb) && FileName(x) == FileName(y)
    ensures la == lb && x == y
  {
    DirNamesInjective(la, lb);
    FileNameInjective(x, y);
  }

  /** A path of the form root, directories, file determines its three parts. */
  lemma SplitPath<T>(x: T, d: seq<T>, y: T, x': T, d': seq<T>, y': T)
    requires [x] + d + [y] == [x'] + d' + [y']
    ensures x == x' && d == d' && y == y'
  {
    var p := [x] + d + [y];
    assert p[0] == x && p[0] == x';
    assert p[1..|p| - 1] == d && p[1..|p| - 1] == d';
    assert p[|p| - 1] == y && p[|p| - 1] == y';
  }

  /**
   * Under one root, distinct cells never share a chunk file. The root is a
   * single path component here, so two different roots naming overlapping
   * directories are outside what this states.
   */
  lemma {:induction false} ChunkFileInjective(root: string, a: seq<int>, b: seq<int>)
    requires |a| >= 1 && |b| >= 1
    requires ChunkFile(root, a) == ChunkFile(root, b)
    ensures a == b
  {
    var n := |a|;
    assert |b| == n;
    var la, lb := a[..n - 1], b[..n - 1];
    SplitPath(root, DirNames(la), FileName(a[n - 1]), root, DirNames(lb), FileName(b[n - 1]));
    NamesInjective(la, a[n - 1], lb, b[n - 1]);
    forall i | 0 <= i < n ensures a[i] == b[i] {
      if i < n - 1 {
        assert a[i] == la[i] && b[i] == lb[i];
      }
    }
  }
}
