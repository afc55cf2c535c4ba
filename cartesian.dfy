/**
 * Cartesian-product enumeration of integer ranges, as `itertools.product`
 * over Python `range` objects produces it. Both the writer (over the whole
 * grid) and the reader (over the chunk-index ranges of a query) enumerate
 * cells this way.
 */
module Cartesian {

  /** Python's `range(lo, hi)`: the integers i with lo <= i < hi. */
  datatype Range = Range(lo: int, hi: int)

  /** t has one entry per range and each entry lies in its range. */
  predicate InBox(t: seq<int>, rs: seq<Range>) {
    |t| == |rs| && forall i :: 0 <= i < |rs| ==> rs[i].lo <= t[i] < rs[i].hi
  }

  /** Every tuple of `tails` with x put in front. */
  function Cons(x: int, tails: seq<seq<int>>): seq<seq<int>> {
    seq(|tails|, j requires 0 <= j < |tails| => [x] + tails[j])
  }

  /** The tuples [i] + tail for lo <= i < hi, i outermost. */
  function Extend(lo: int, hi: int, tails: seq<seq<int>>): seq<seq<int>>
    decreases hi - lo
  {
    if hi <= lo then [] else Cons(lo, tails) + Extend(lo + 1, hi, tails)
  }

  /**
   * `itertools.product(*[range(r.lo, r.hi) for r in rs])` in its order: the
   * last position varies fastest, and the product of no ranges is the one
   * empty tuple.
   */
  function Product(rs: seq<Range>): seq<seq<int>>
    decreases |rs|
  {
    if rs == [] then [[]] else Extend(rs[0].lo, rs[0].hi, Product(rs[1..]))
  }

  /** `len(range(r.lo, r.hi))`. */
  function Width(r: Range): nat {
    if r.hi <= r.lo then 0 else r.hi - r.lo
  }

  /** The number of tuples in the box: the product of the widths. */
  function Volume(rs: seq<Range>): nat {
    if rs == [] then 1 else Width(rs[0]) * Volume(rs[1..])
  }

  /** A box splits into its first range and the box of the rest. */
  lemma InBoxSplit(t: seq<int>, rs: seq<Range>)
    requires rs != []
    ensures InBox(t, rs) <==> |t| >= 1 && rs[0].lo <= t[0] < rs[0].hi && InBox(t[1..], rs[1..])
  {
    if |t| >= 1 && rs[0].lo <= t[0] < rs[0].hi && InBox(t[1..], rs[1..]) {
      forall i | 0 <= i < |rs| ensures rs[i].lo <= t[i] < rs[i].hi {
        if i > 0 {
          assert t[1..][i - 1] == t[i];
        }
      }
    }
  }

  lemma {:induction false} ConsCount(x: int, tails: seq<seq<int>>, t: seq<int>)
    ensures multiset(Cons(x, tails))[t] ==
            if |t| >= 1 && t[0] == x then multiset(tails)[t[1..]] else 0
    decreases |tails|
  {
    if tails == [] {
      assert Cons(x, tails) == [];
    } else {
      var head := [x] + tails[0];
      assert Cons(x, tails) == [head] + Cons(x, tails[1..]);
      assert tails == [tails[0]] + tails[1..];
      ConsCount(x, tails[1..], t);
      assert head == t <==> |t| >= 1 && t[0] == x && t[1..] == tails[0] by {
        if |t| >= 1 && t[0] == x && t[1..] == tails[0] {
          assert t == [t[0]] + t[1..];
        }
        if head == t {
          assert t[1..] == head[1..];
        }
      }
    }
  }

  lemma {:induction false} ExtendCount(lo: int, hi: int, tails: seq<seq<int>>, t: seq<int>)
    ensures multiset(Extend(lo, hi, tails))[t] ==
            if |t| >= 1 && lo <= t[0] < hi then multiset(tails)[t[1..]] else 0
    decreases hi - lo
  {
    if lo < hi {
      ConsCount(lo, tails, t);
      ExtendCount(lo + 1, hi, tails, t);
      var here, rest := Cons(lo, tails), Extend(lo + 1, hi, tails);
      assert Extend(lo, hi, tails) == here + rest;
      assert multiset(Extend(lo, hi, tails))[t] == multiset(here)[t] + multiset(rest)[t];
    }
  }

  /**
   * The enumeration visits every tuple of the box exactly once and nothing
   * outside it.
   */
  lemma {:induction false} ProductCount(rs: seq<Range>, t: seq<int>)
    ensures multiset(Product(rs))[t] == if InBox(t, rs) then 1 else 0
    decreases |rs|
  {
    if rs == [] {
      assert |t| == 0 ==> t == [];
    } else {
      ExtendCount(rs[0].lo, rs[0].hi, Product(rs[1..]), t);
      if |t| >= 1 {
        ProductCount(rs[1..], t[1..]);
      }
      InBoxSplit(t, rs);
    }
  }

  /** A tuple is enumerated iff it lies in the box. */
  lemma ProductMembership(rs: seq<Range>, t: seq<int>)
    ensures t in Product(rs) <==> InBox(t, rs)
  {
    ProductCount(rs, t);
  }

  /** Every enumerated tuple lies in the box. */
  lemma ProductInBox(rs: seq<Range>)
    ensures forall t :: t in Product(rs) ==> InBox(t, rs)
  {
    forall t | t in Product(rs) ensures InBox(t, rs) {
      ProductMembership(rs, t);
    }
  }

  lemma {:induction false} ExtendLength(lo: int, hi: int, tails: seq<seq<int>>)
    ensures |Extend(lo, hi, tails)| == Width(Range(lo, hi)) * |tails|
    decreases hi - lo
  {
    if lo < hi {
      ExtendLength(lo + 1, hi, tails);
      assert Width(Range(lo, hi)) == Width(Range(lo + 1, hi)) + 1;
    }
  }

  /** The enumeration has as many tuples as the box has cells. */
  lemma {:induction false} ProductLength(rs: seq<Range>)
    ensures |Product(rs)| == Volume(rs)
    decreases |rs|
  {
    if rs != [] {
      ProductLength(rs[1..]);
      ExtendLength(rs[0].lo, rs[0].hi, Product(rs[1..]));
    }
  }
}
