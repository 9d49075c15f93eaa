/** Fee and size pairs, compared by feerate (src/util/feefrac.h). Fees and sizes
    are unbounded integers: the original's callers keep the sums within its
    integer widths. */
module FeeFracs {
  import opened Collections

  datatype FeeFrac = FeeFrac(fee: int, size: int) {

    predicate IsEmpty() {
      size == 0
    }

    function Plus(other: FeeFrac): FeeFrac {
      FeeFrac(fee + other.fee, size + other.size)
    }

    function Minus(other: FeeFrac): FeeFrac {
      FeeFrac(fee - other.fee, size - other.size)
    }

    function Negated(): FeeFrac {
      FeeFrac(-fee, size)
    }

    /** Operator `>>`: strictly higher feerate. */
    predicate Higher(other: FeeFrac) {
      fee * other.size > other.fee * size
    }

    /** Operator `<<`: strictly lower feerate. */
    predicate Lower(other: FeeFrac) {
      fee * other.size < other.fee * size
    }

    /** Operator `>`: higher feerate, or the same feerate and a smaller size. */
    predicate Better(other: FeeFrac) {
      var mine := fee * other.size;
      var theirs := other.fee * size;
      mine > theirs || (mine == theirs && size < other.size)
    }

    /** The number of fee units (scaled by q) by which this pair exceeds the
        feerate p/q. It is additive, which is what makes diagrams tractable. */
    ghost function Excess(p: int, q: int): int {
      q * fee - p * size
    }
  }

  const EMPTY := FeeFrac(0, 0)

  ghost function PerSize(f: FeeFrac): real
    requires f.size > 0
  {
    f.fee as real / f.size as real
  }

  /** The operators compare fee per size, `>` preferring the smaller of two pairs of one
      feerate. */
  lemma RatesCompared(a: FeeFrac, b: FeeFrac)
    requires a.size > 0 && b.size > 0
    ensures a.Higher(b) <==> PerSize(a) > PerSize(b)
    ensures a.Lower(b) <==> PerSize(a) < PerSize(b)
    ensures a.Better(b) <==> PerSize(a) > PerSize(b) || (PerSize(a) == PerSize(b) && a.size < b.size)
  {
    var x, y, s, t := PerSize(a), PerSize(b), a.size as real, b.size as real;
    assert a.fee as real == x * s && b.fee as real == y * t;
    assert (a.fee * b.size) as real == a.fee as real * t && (b.fee * a.size) as real == b.fee as real * s;
    ScaledCompare(x, y, s, t);
  }

  lemma ScaledCompare(x: real, y: real, s: real, t: real)
    requires s > 0.0 && t > 0.0
    ensures x * s * t > y * t * s <==> x > y
    ensures x * s * t < y * t * s <==> x < y
  {
    var n := s * t;
    assert n > 0.0 && x * s * t == x * n && y * t * s == y * n;
    assert x > y ==> (x - y) * n > 0.0;
    assert x < y ==> (y - x) * n > 0.0;
  }

  lemma ExcessPlus(a: FeeFrac, b: FeeFrac, p: int, q: int)
    ensures a.Plus(b).Excess(p, q) == a.Excess(p, q) + b.Excess(p, q)
  {
  }

  /** Feerate comparison with f is the sign of the excess over f's feerate. */
  lemma HigherIsExcess(f: FeeFrac, x: FeeFrac)
    ensures x.Higher(f) <==> x.Excess(f.fee, f.size) > 0
    ensures f.Higher(x) <==> x.Excess(f.fee, f.size) < 0
    ensures f.Excess(f.fee, f.size) == 0
  {
  }

  /** Excess is monotone in feerate once both sides are scaled to a common size. */
  lemma ExcessCross(a: FeeFrac, b: FeeFrac, p: int, q: int)
    requires q > 0
    ensures a.fee * b.size <= b.fee * a.size ==> a.Excess(p, q) * b.size <= b.Excess(p, q) * a.size
    ensures a.fee * b.size < b.fee * a.size ==> a.Excess(p, q) * b.size < b.Excess(p, q) * a.size
  {
    var x, y := a.fee * b.size, b.fee * a.size;
    assert a.Excess(p, q) * b.size == q * x - p * a.size * b.size;
    assert b.Excess(p, q) * a.size == q * y - p * a.size * b.size;
  }

  /** If a's feerate is not above b's, a's excess cannot be positive unless b's is. */
  lemma ExcessSign(a: FeeFrac, b: FeeFrac, p: int, q: int)
    requires q > 0 && a.size > 0 && b.size > 0
    requires !a.Higher(b)
    ensures a.Excess(p, q) >= 0 ==> b.Excess(p, q) >= 0
    ensures a.Excess(p, q) > 0 ==> b.Excess(p, q) > 0
    ensures b.Excess(p, q) == 0 ==> a.Excess(p, q) <= 0
    ensures a.size <= b.size && b.Excess(p, q) >= 0 ==> a.Excess(p, q) <= b.Excess(p, q)
  {
    ExcessCross(a, b, p, q);
    ExcessScale(a.Excess(p, q), b.size, b.Excess(p, q), a.size);
  }

  /** x*n <= y*m with positive n, m, as a fact about x and y. */
  lemma ExcessScale(x: int, n: int, y: int, m: int)
    requires n > 0 && m > 0
    requires x * n <= y * m
    ensures x >= 0 ==> y >= 0
    ensures x > 0 ==> y > 0
    ensures y == 0 ==> x <= 0
    ensures m <= n && y >= 0 ==> x <= y
  {
    assert x > 0 ==> x * n > 0;
    assert y < 0 ==> y * m < 0;
    assert m <= n && y >= 0 ==> y * m <= y * n;
    assert x > y ==> x * n >= (y + 1) * n == y * n + n;
  }

  /** The order `>=` is total and transitive on non-empty pairs. */
  lemma FeerateTransitive(a: FeeFrac, b: FeeFrac, c: FeeFrac)
    requires a.size > 0 && b.size > 0 && c.size > 0
    ensures !b.Higher(a) && !c.Higher(b) ==> !c.Higher(a)
    ensures a.Higher(b) && !c.Higher(b) ==> a.Higher(c)
    ensures !b.Higher(a) && b.Higher(c) ==> a.Higher(c)
  {
    ChainFraction(a.fee, a.size, b.fee, b.size, c.fee, c.size);
  }

  lemma ChainFraction(af: int, s: int, bf: int, t: int, cf: int, u: int)
    requires s > 0 && t > 0 && u > 0
    ensures af * t >= bf * s && bf * u >= cf * t ==> af * u >= cf * s
    ensures af * t > bf * s && bf * u >= cf * t ==> af * u > cf * s
    ensures af * t >= bf * s && bf * u > cf * t ==> af * u > cf * s
  {
    var x, y := af * u, cf * s;
    var at, bs, bu, ct := af * t, bf * s, bf * u, cf * t;
    assert x * t == at * u;
    assert bs * u == bu * s;
    assert y * t == ct * s;
    if at >= bs {
      assert at * u >= bs * u;
    }
    if bu >= ct {
      assert bu * s >= ct * s;
    }
    if at > bs {
      assert at * u > bs * u;
    }
    if bu > ct {
      assert bu * s > ct * s;
    }
    if x < y {
      assert x * t < y * t;
    }
    if x == y {
      assert x * t == y * t;
    }
  }

  /** Operators `>` and `>=` order non-empty pairs totally and transitively. */
  lemma BetterTransitive(a: FeeFrac, b: FeeFrac, c: FeeFrac)
    requires a.size > 0 && b.size > 0 && c.size > 0
    ensures a.Better(b) && !c.Better(b) ==> !c.Better(a)
    ensures a.Better(b) && b.Better(c) ==> a.Better(c)
    ensures a.Better(b) ==> !b.Better(a)
    ensures !a.Better(b) && !b.Better(a) ==> a == b
    ensures !b.Better(a) ==> !b.Higher(a)
  {
    ChainFraction(a.fee, a.size, b.fee, b.size, c.fee, c.size);
    ChainFraction(c.fee, c.size, b.fee, b.size, a.fee, a.size);
    if a.size == b.size && a.fee * b.size == b.fee * a.size {
      SameFactor(a.fee, b.fee, a.size);
    }
  }

  lemma SameFactor(x: int, y: int, n: int)
    requires n > 0 && x * n == y * n
    ensures x == y
  {
    assert x < y ==> x * n < y * n;
    assert x > y ==> x * n > y * n;
  }
}
