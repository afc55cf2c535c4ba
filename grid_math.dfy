/**
 * The integer arithmetic of the chunk addressing scheme: Python's
 * `math.floor(a / b)` and `math.ceil(a / b)` (and numpy's `np.ceil` on the
 * quotient) for a positive divisor, and the decimal rendering `str(i)` that
 * names directories and files.
 */
module GridMath {

  /** `math.floor(a / b)` for `b > 0`: the unique q with q*b <= a < q*b + b. */
  function FloorDiv(a: int, b: int): (q: int)
    requires b > 0
    ensures q * b <= a < q * b + b
  {
    a / b
  }

  /** `math.ceil(a / b)` for `b > 0`: the unique q with q*b - b < a <= q*b. */
  function CeilDiv(a: int, b: int): (q: int)
    requires b > 0
    ensures q * b - b < a <= q * b
  {
    -((-a) / b)
  }

  /** If i < j then i*b + b <= j*b, for a positive b. */
  lemma MulStep(i: int, j: int, b: int)
    requires b > 0 && i < j
    ensures i * b + b <= j * b
  {
    var d := j - i - 1;
    assert d >= 0;
    assert d * b >= 0;
    assert j * b == i * b + b + d * b;
  }

  /** Any q that brackets a in [q*b, q*b + b) is the floor of a / b. */
  lemma FloorDivUnique(a: int, b: int, q: int)
    requires b > 0
    requires q * b <= a < q * b + b
    ensures FloorDiv(a, b) == q
  {
    var f := FloorDiv(a, b);
    if f < q {
      MulStep(f, q, b);
    } else if q < f {
      MulStep(q, f, b);
    }
  }

  /** Any q with q*b - b < a <= q*b is the ceiling of a / b. */
  lemma CeilDivUnique(a: int, b: int, q: int)
    requires b > 0
    requires q * b - b < a <= q * b
    ensures CeilDiv(a, b) == q
  {
    var c := CeilDiv(a, b);
    if c < q {
      MulStep(c, q, b);
    } else if q < c {
      MulStep(q, c, b);
    }
  }

  /** Floor division is monotonic in the dividend. */
  lemma FloorDivMonotonic(a: int, a': int, b: int)
    requires b > 0 && a <= a'
    ensures FloorDiv(a, b) <= FloorDiv(a', b)
  {
    if FloorDiv(a', b) < FloorDiv(a, b) {
      MulStep(FloorDiv(a', b), FloorDiv(a, b), b);
    }
  }

  /** Ceiling division is monotonic in the dividend. */
  lemma CeilDivMonotonic(a: int, a': int, b: int)
    requires b > 0 && a <= a'
    ensures CeilDiv(a, b) <= CeilDiv(a', b)
  {
    if CeilDiv(a', b) < CeilDiv(a, b) {
      MulStep(CeilDiv(a', b), CeilDiv(a, b), b);
    }
  }

  /**
   * Half-open unit membership: v lies in [idx*w, (idx+1)*w) exactly when
   * idx is the floor of v / w. This is what makes a chunk bound a partition.
   */
  lemma {:induction false} UnitMembership(v: int, idx: int, w: int)
    requires w > 0
    ensures (idx * w <= v < (idx + 1) * w) <==> FloorDiv(v, w) == idx
  {
    assert (idx + 1) * w == idx * w + w;
    if idx * w <= v < (idx + 1) * w {
      FloorDivUnique(v, w, idx);
    }
  }

  /** A value lies in [0, n*w) exactly when its unit index lies in [0, n). */
  lemma {:induction false} UnitIndexInRange(v: int, n: int, w: int)
    requires w > 0
    ensures (0 <= v < n * w) <==> (0 <= FloorDiv(v, w) < n)
  {
    var f := FloorDiv(v, w);
    if 0 <= v < n * w {
      if f < 0 {
        MulStep(f, 0, w);
      }
      if f >= n {
        if n < f { MulStep(n, f, w); }
      }
    }
    if 0 <= f < n {
      if f + 1 < n + 0 {
        MulStep(f, n, w);
      } else {
        assert f + 1 == n;
        assert n * w == f * w + w;
      }
      if 0 < f {
        MulStep(0, f, w);
      }
    }
  }

  /** Nested floor division: floor(floor(v/s)/c) == floor(v/(s*c)). */
  lemma {:induction false} FloorDivNested(v: int, s: int, c: int)
    requires s > 0 && c > 0
    ensures FloorDiv(FloorDiv(v, s), c) == FloorDiv(v, s * c)
  {
    var p := FloorDiv(v, s);
    var q := FloorDiv(p, c);
    // q*c <= p < q*c + c, and p*s <= v < p*s + s
    assert q * c * s <= p * s by {
      assert p * s - q * c * s == (p - q * c) * s;
    }
    assert p * s + s <= (q * c + c) * s by {
      MulStep(p, q * c + c, s);
    }
    assert (q * c + c) * s == q * (s * c) + s * c;
    assert q * c * s == q * (s * c);
    FloorDivUnique(v, s * c, q);
  }

  /** The decimal digit for 0..9. */
  function DigitChar(d: int): (ch: char)
    requires 0 <= d < 10
    ensures '0' <= ch <= '9'
    ensures ch as int - '0' as int == d
  {
    (d + '0' as int) as char
  }

  /** Python's `str(n)` for a natural number: its decimal digits, no leading zeros. */
  function NatToString(n: nat): (s: string)
    ensures 1 <= |s|
    ensures n < 10 <==> |s| == 1
    ensures '0' <= s[0] <= '9'
    decreases n
  {
    if n < 10 then [DigitChar(n)] else NatToString(n / 10) + [DigitChar(n % 10)]
  }

  /** Python's `str(i)` for an integer: a minus sign before negative numbers. */
  function IntToString(i: int): (s: string)
    ensures 1 <= |s|
    ensures (s[0] == '-') <==> i < 0
  {
    if i < 0 then "-" + NatToString(-i) else NatToString(i)
  }

  /** Distinct naturals have distinct decimal renderings. */
  lemma {:induction false} NatToStringInjective(a: nat, b: nat)
    requires NatToString(a) == NatToString(b)
    ensures a == b
    decreases a
  {
    var s := NatToString(a);
    if a >= 10 && b >= 10 {
      var n := |s|;
      assert NatToString(a / 10) == s[..n - 1];
      assert NatToString(b / 10) == s[..n - 1];
      NatToStringInjective(a / 10, b / 10);
      assert DigitChar(a % 10) == s[n - 1] == DigitChar(b % 10);
    } else if a < 10 && b < 10 {
      assert DigitChar(a) == s[0] == DigitChar(b);
    }
  }

  /** Distinct integers have distinct renderings under `str`. */
  lemma {:induction false} IntToStringInjective(a: int, b: int)
    requires IntToString(a) == IntToString(b)
    ensures a == b
  {
    var s := IntToString(a);
    if a < 0 {
      assert b < 0;
      assert NatToString(-a) == s[1..] == NatToString(-b);
      NatToStringInjective(-a, -b);
    } else {
      assert b >= 0;
      NatToStringInjective(a, b);
    }
  }
}
