/**
 * The table side of the model: a table is a sequence of rows, each holding
 * its values of the chunk columns (in `chunk_columns` order) and an opaque
 * payload for every other column. Row selection (`df.query`), the multi-key
 * ascending sort (`sort_values(by=chunk_columns)`) and concatenation
 * (`pd.concat`) are the dataframe operations the core relies on.
 */
module Table {

  datatype Row<P> = Row(key: seq<int>, payload: P)

  /** Lexicographic order on chunk-column values, earlier columns first. */
  predicate KeyLe(a: seq<int>, b: seq<int>)
    decreases |a|
  {
    if a == [] then true
    else if b == [] then false
    else a[0] < b[0] || (a[0] == b[0] && KeyLe(a[1..], b[1..]))
  }

  lemma {:induction false} KeyLeReflexive(a: seq<int>)
    ensures KeyLe(a, a)
    decreases |a|
  {
    if a != [] {
      KeyLeReflexive(a[1..]);
    }
  }

  /** Two keys of the same length are always comparable. */
  lemma {:induction false} KeyLeTotal(a: seq<int>, b: seq<int>)
    requires |a| == |b|
    ensures KeyLe(a, b) || KeyLe(b, a)
    decreases |a|
  {
    if a != [] {
      KeyLeTotal(a[1..], b[1..]);
    }
  }

  lemma {:induction false} KeyLeTransitive(a: seq<int>, b: seq<int>, c: seq<int>)
    requires KeyLe(a, b) && KeyLe(b, c)
    ensures KeyLe(a, c)
    decreases |a|
  {
    if a != [] && b != [] && c != [] && a[0] == b[0] == c[0] {
      KeyLeTransitive(a[1..], b[1..], c[1..]);
    }
  }

  /** Ascending by chunk columns, between every pair of positions. */
  ghost predicate Sorted<P>(s: seq<Row<P>>) {
    forall i, j :: 0 <= i < j < |s| ==> KeyLe(s[i].key, s[j].key)
  }

  /** Every row's key has length k. */
  ghost predicate KeysOfLength<P>(s: seq<Row<P>>, k: nat) {
    forall i :: 0 <= i < |s| ==> |s[i].key| == k
  }

  /** Insertion of x before the first row that is not smaller. */
  function Insert<P(==)>(x: Row<P>, s: seq<Row<P>>): (r: seq<Row<P>>)
    requires KeysOfLength(s, |x.key|)
    ensures multiset(r) == multiset(s) + multiset{x}
    ensures KeysOfLength(r, |x.key|)
    decreases |s|
  {
    if s == [] then [x]
    else if KeyLe(x.key, s[0].key) then [x] + s
    else
      assert s == [s[0]] + s[1..];
      [s[0]] + Insert(x, s[1..])
  }

  /** A row below a sorted table's every row can be put in front of it. */
  lemma ConsSorted<P>(y: Row<P>, s: seq<Row<P>>)
    requires Sorted(s)
    requires forall j :: 0 <= j < |s| ==> KeyLe(y.key, s[j].key)
    ensures Sorted([y] + s)
  {
    var r := [y] + s;
    forall i, j | 0 <= i < j < |r| ensures KeyLe(r[i].key, r[j].key) {
      assert r[j] == s[j - 1];
      if i > 0 {
        assert r[i] == s[i - 1];
      }
    }
  }

  /** A lower bound of x and of every row of s bounds every row of the insertion. */
  lemma InsertLowerBound<P>(y: Row<P>, x: Row<P>, s: seq<Row<P>>)
    requires KeysOfLength(s, |x.key|)
    requires KeyLe(y.key, x.key)
    requires forall i :: 0 <= i < |s| ==> KeyLe(y.key, s[i].key)
    ensures forall j :: 0 <= j < |Insert(x, s)| ==> KeyLe(y.key, Insert(x, s)[j].key)
  {
    var r := Insert(x, s);
    forall j | 0 <= j < |r| ensures KeyLe(y.key, r[j].key) {
      assert r[j] in multiset(r);
      if r[j] != x {
        assert r[j] in multiset(s);
        var m :| 0 <= m < |s| && s[m] == r[j];
      }
    }
  }

  /** Inserting into a sorted table keeps it sorted. */
  lemma {:induction false} InsertSorted<P>(x: Row<P>, s: seq<Row<P>>)
    requires KeysOfLength(s, |x.key|)
    requires Sorted(s)
    ensures Sorted(Insert(x, s))
    decreases |s|
  {
    if s == [] {
    } else if KeyLe(x.key, s[0].key) {
      forall j | 0 <= j < |s| ensures KeyLe(x.key, s[j].key) {
        if j > 0 {
          KeyLeTransitive(x.key, s[0].key, s[j].key);
        }
      }
      ConsSorted(x, s);
    } else {
      var tail := s[1..];
      assert Sorted(tail) by {
        forall i, j | 0 <= i < j < |tail| ensures KeyLe(tail[i].key, tail[j].key) {
          assert tail[i] == s[i + 1] && tail[j] == s[j + 1];
        }
      }
      InsertSorted(x, tail);
      KeyLeTotal(x.key, s[0].key);
      forall i | 0 <= i < |tail| ensures KeyLe(s[0].key, tail[i].key) {
        assert tail[i] == s[i + 1];
      }
      InsertLowerBound(s[0], x, tail);
      ConsSorted(s[0], Insert(x, tail));
    }
  }

  /**
   * `sort_values(by=chunk_columns)`: ascending by the chunk columns, a
   * permutation of its input. With several `by` columns pandas sorts
   * lexicographically and keeps the input order among equal keys; the
   * model promises only a sorted permutation and leaves that order open.
   */
  function SortRows<P(==)>(s: seq<Row<P>>, k: nat): (r: seq<Row<P>>)
    requires KeysOfLength(s, k)
    ensures multiset(r) == multiset(s)
    ensures Sorted(r)
    ensures KeysOfLength(r, k)
    decreases |s|
  {
    if s == [] then []
    else
      assert s == [s[0]] + s[1..];
      InsertSorted(s[0], SortRows(s[1..], k));
      Insert(s[0], SortRows(s[1..], k))
  }

  /** `df.query(...)` for a row predicate: the selected rows in table order. */
  function Filter<T>(s: seq<T>, p: T -> bool): (r: seq<T>)
    ensures forall i :: 0 <= i < |r| ==> p(r[i])
    decreases |s|
  {
    if s == [] then []
    else if p(s[0]) then [s[0]] + Filter(s[1..], p)
    else Filter(s[1..], p)
  }

  /** Selection keeps every occurrence of a selected row and none of the rest. */
  lemma {:induction false} FilterCount<T>(s: seq<T>, p: T -> bool, x: T)
    ensures multiset(Filter(s, p))[x] == if p(x) then multiset(s)[x] else 0
    decreases |s|
  {
    if s != [] {
      FilterCount(s[1..], p, x);
      assert s == [s[0]] + s[1..];
    }
  }

  /** `pd.concat` of a list of tables, in list order. */
  function Concat<T>(chunks: seq<seq<T>>): seq<T>
    decreases |chunks|
  {
    if chunks == [] then [] else chunks[0] + Concat(chunks[1..])
  }

  /** The list in reverse order. */
  function Reverse<T>(s: seq<T>): (r: seq<T>)
    ensures |r| == |s|
    decreases |s|
  {
    if s == [] then [] else Reverse(s[1..]) + [s[0]]
  }

  lemma {:induction false} ConcatAppend<T>(chunks: seq<seq<T>>, last: seq<T>)
    ensures Concat(chunks + [last]) == Concat(chunks) + last
    decreases |chunks|
  {
    if chunks != [] {
      assert (chunks + [last])[1..] == chunks[1..] + [last];
      ConcatAppend(chunks[1..], last);
    }
  }

  /** A table's rows, counted with multiplicity, do not depend on chunk order. */
  lemma {:induction false} ConcatReverseMultiset<T>(chunks: seq<seq<T>>)
    ensures multiset(Concat(Reverse(chunks))) == multiset(Concat(chunks))
    decreases |chunks|
  {
    if chunks != [] {
      ConcatReverseMultiset(chunks[1..]);
      ConcatAppend(Reverse(chunks[1..]), chunks[0]);
    }
  }
}
