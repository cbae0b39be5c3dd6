/**
 * The double-precision arithmetic behind `Math.round(x / y * k)` on counts:
 * IEEE 754 binary64 values, the rounding of a quotient of integers to the
 * nearest double (ties to an even significand), the rounded product of a
 * double by an integer, and `Math.round`.
 *
 * The exponent range is unbounded: there is no overflow and there are no
 * subnormals. Integer operands are exact doubles, which holds below 2^53.
 */
module Binary64 {

  /** 2^n. */
  function Pow2(n: nat): (r: nat)
    ensures r >= 1
  {
    if n == 0 then 1 else 2 * Pow2(n - 1)
  }

  lemma {:induction false} Pow2Add(a: nat, b: nat)
    ensures Pow2(a + b) == Pow2(a) * Pow2(b)
    decreases b
  {
    if b > 0 {
      Pow2Add(a, b - 1);
      assert Pow2(a + b) == 2 * Pow2(a + b - 1);
    }
  }

  /** The smallest and the first excluded significand of a normalised double. */
  const Two52: nat := 0x10_0000_0000_0000
  const Two53: nat := 0x20_0000_0000_0000

  lemma Pow2Values()
    ensures Pow2(10) == 0x400
    ensures Pow2(47) == 0x8000_0000_0000
    ensures Pow2(52) == Two52
    ensures Pow2(53) == Two53
  {
    assert Pow2(10) == 0x400;
    Pow2Add(10, 10);
    Pow2Add(20, 20);
    Pow2Add(40, 7);
    Pow2Add(40, 12);
    Pow2Add(40, 13);
    assert Pow2(7) == 0x80;
    assert Pow2(12) == 0x1000;
    assert Pow2(13) == 0x2000;
  }

  /** The double `m * 2^e`. */
  datatype Float = Float(m: int, e: int)

  /** The value of a double as the fraction `Num(f) / Den(f)`, the denominator a power of two. */
  function Num(f: Float): int {
    if f.e >= 0 then f.m * Pow2(f.e) else f.m
  }

  function Den(f: Float): (d: nat)
    ensures d >= 1
  {
    if f.e >= 0 then 1 else Pow2(-f.e)
  }

  /** `-f`: the same magnitude with the other sign. */
  function Neg(f: Float): (r: Float)
    ensures Num(r) == -Num(f) && Den(r) == Den(f)
  {
    Float(-f.m, f.e)
  }

  // ---------------------------------------------------------------------------
  // rounding a positive quotient

  /** `a * 2^-e` when the exponent is negative, `a` otherwise. */
  function ScaledNum(a: nat, e: int): nat {
    if e < 0 then a * Pow2(-e) else a
  }

  /** `b * 2^e` when the exponent is not negative, `b` otherwise. */
  function ScaledDen(b: nat, e: int): nat {
    if e < 0 then b else b * Pow2(e)
  }

  /** `e` is the exponent of `a / b` at 53 bits: `2^52 <= (a / b) * 2^-e < 2^53`. */
  predicate Normalised(a: nat, b: nat, e: int) {
    Two52 * ScaledDen(b, e) <= ScaledNum(a, e) < Two53 * ScaledDen(b, e)
  }

  /** The exponent of a quotient of at least 2^52, found upwards from `e`. */
  function ExponentUp(a: nat, b: nat, e: nat): (r: int)
    requires b > 0 && Two52 * b * Pow2(e) <= a
    ensures Normalised(a, b, r)
    decreases a - b * Pow2(e)
  {
    if a < Two53 * b * Pow2(e) then e
    else
      assert Two53 * b * Pow2(e) == Two52 * b * Pow2(e + 1);
      assert b * Pow2(e + 1) == 2 * (b * Pow2(e));
      ExponentUp(a, b, e + 1)
  }

  /** The exponent of a quotient below 2^52, found downwards: `-k` for the first `k` that normalises it. */
  function ExponentDown(a: nat, b: nat, k: nat): (r: int)
    requires a > 0 && b > 0 && k >= 1 && a * Pow2(k - 1) < Two52 * b
    ensures Normalised(a, b, r)
    decreases Two52 * b - a * Pow2(k - 1)
  {
    assert a * Pow2(k) == 2 * (a * Pow2(k - 1));
    if Two52 * b <= a * Pow2(k) then -(k as int)
    else ExponentDown(a, b, k + 1)
  }

  /** The exponent of the double nearest to `a / b`, before the rounding of the significand. */
  function Exponent(a: nat, b: nat): (e: int)
    requires a > 0 && b > 0
    ensures Normalised(a, b, e)
  {
    if Two52 * b <= a then ExponentUp(a, b, 0) else ExponentDown(a, b, 1)
  }

  /** `x <= y` scales by a non-negative factor. */
  lemma MulLe(k: int, x: int, y: int)
    requires k >= 0 && x <= y
    ensures k * x <= k * y
  {
  }

  /** `x < y` scales by a positive factor. */
  lemma MulLt(k: int, x: int, y: int)
    requires k > 0 && x < y
    ensures k * x < k * y
  {
  }

  lemma {:induction false} Pow2Le(a: nat, b: nat)
    requires a <= b
    ensures Pow2(a) <= Pow2(b)
    decreases b
  {
    if a < b {
      Pow2Le(a, b - 1);
    }
  }

  /** A quotient has one exponent. */
  lemma NormalisedUnique(a: nat, b: nat, e1: int, e2: int)
    requires a > 0 && b > 0 && Normalised(a, b, e1) && Normalised(a, b, e2)
    ensures e1 == e2
  {
    if e1 < e2 {
      NormalisedOrdered(a, b, e1, e2);
    } else if e2 < e1 {
      NormalisedOrdered(a, b, e2, e1);
    }
  }

  /** The exponents of a quotient are ordered like its bounds: above `e2` it is not below `e1`'s ceiling. */
  lemma NormalisedOrdered(a: nat, b: nat, e1: int, e2: int)
    requires a > 0 && b > 0 && e1 < e2 && Normalised(a, b, e2)
    ensures !Normalised(a, b, e1)
  {
    if e1 >= 0 {
      OrderedUp(a, b, e1, e2);
    } else if e2 >= 0 {
      OrderedAcross(a, b, -e1, e2);
    } else {
      OrderedDown(a, b, -e2, -e1);
    }
  }

  lemma OrderedUp(a: nat, b: nat, e1: nat, e2: nat)
    requires b > 0 && e1 < e2
    requires Two52 * (b * Pow2(e2)) <= a
    ensures Two53 * (b * Pow2(e1)) <= a
  {
    var p1, p2 := Pow2(e1), Pow2(e2);
    Pow2Le(e1 + 1, e2);
    assert 2 * p1 <= p2;
    MulLe(b, 2 * p1, p2);
    MulLe(Two52, b * (2 * p1), b * p2);
    assert Two52 * (b * (2 * p1)) == Two53 * (b * p1);
  }

  lemma OrderedAcross(a: nat, b: nat, k1: nat, e2: nat)
    requires b > 0 && k1 >= 1
    requires Two52 * (b * Pow2(e2)) <= a
    ensures Two53 * b <= a * Pow2(k1)
  {
    Pow2Le(1, k1);
    MulLe(a, 2, Pow2(k1));
    MulLe(b, 1, Pow2(e2));
    MulLe(Two52, b, b * Pow2(e2));
  }

  lemma OrderedDown(a: nat, b: nat, k2: nat, k1: nat)
    requires b > 0 && 1 <= k2 < k1
    requires Two52 * b <= a * Pow2(k2)
    ensures Two53 * b <= a * Pow2(k1)
  {
    Pow2Le(k2 + 1, k1);
    assert 2 * Pow2(k2) <= Pow2(k1);
    MulLe(a, 2 * Pow2(k2), Pow2(k1));
    MulLe(2, Two52 * b, a * Pow2(k2));
  }

  /** The integer nearest to `n / d`, the even one at a tie. */
  function RoundHalfEven(n: nat, d: nat): (m: nat)
    requires d > 0
    ensures 2 * n - d <= 2 * d * m <= 2 * n + d
    ensures 2 * d * m == 2 * n - d || 2 * d * m == 2 * n + d ==> m % 2 == 0
  {
    var q, r := n / d, n % d;
    if 2 * r < d then q
    else if 2 * r > d then q + 1
    else if q % 2 == 0 then q
    else q + 1
  }

  /** Rounding to the nearest integer keeps every integer bound. */
  lemma RoundHalfEvenAtLeast(n: nat, d: nat, k: int)
    requires d > 0 && n >= k * d
    ensures RoundHalfEven(n, d) >= k
  {
    var m := RoundHalfEven(n, d);
    if m < k {
      MulLe(2 * d, m, k - 1);
    }
  }

  /** The double nearest to the positive quotient `a / b`. */
  function RoundPositive(a: nat, b: nat): (f: Float)
    requires a > 0 && b > 0
  {
    var e := Exponent(a, b);
    Float(RoundHalfEven(ScaledNum(a, e), ScaledDen(b, e)), e)
  }

  /** The double nearest to `a / b`: the quotient `a / b` of two integer-valued doubles. */
  function Round(a: int, b: int): (f: Float)
    requires b > 0
    ensures a >= 0 ==> Num(f) >= 0
    ensures a <= 0 ==> Num(f) <= 0
  {
    if a > 0 then
      var f := RoundPositive(a, b);
      assert Num(f) >= 0;
      f
    else if a < 0 then
      var f := RoundPositive(-a, b);
      assert Num(f) >= 0;
      Neg(f)
    else Float(0, 0)
  }

  /** The double nearest to the product of `f` and the integer `k`. */
  function Times(f: Float, k: int): Float {
    Round(k * Num(f), Den(f))
  }

  /** `Math.round(x)`: the nearest integer, halves towards +infinity (`floor(x + 1/2)`). */
  function MathRound(f: Float): int {
    (2 * Num(f) + Den(f)) / (2 * Den(f))
  }

  // ---------------------------------------------------------------------------
  // what rounding guarantees

  /** Rounding is symmetric: the quotient of the opposite sign rounds to the opposite double. */
  lemma RoundNeg(a: int, b: int)
    requires b > 0
    ensures Num(Round(-a, b)) == -Num(Round(a, b)) && Den(Round(-a, b)) == Den(Round(a, b))
  {
  }

  /**
   * The pieces of a positive rounding: the quotient scaled to `n / d` with
   * `2^52 <= n / d < 2^53`, the significand `m` nearest to it, and how they
   * give the double's fraction: `Num * b == m * d` and `a * Den == n`.
   */
  lemma RoundPositiveParts(a: nat, b: nat) returns (n: int, d: int, m: int)
    requires a > 0 && b > 0
    ensures d > 0 && Two52 * d <= n < Two53 * d
    ensures 2 * n - d <= 2 * d * m <= 2 * n + d
    ensures var f := RoundPositive(a, b);
      && Num(f) * b == m * d && a * Den(f) == n
      && (f.e >= 0 ==> Num(f) == m * Pow2(f.e) && Den(f) == 1 && m >= Two52)
      && (f.e < 0 ==> Num(f) == m && d == b)
  {
    var e := Exponent(a, b);
    n, d := ScaledNum(a, e), ScaledDen(b, e);
    m := RoundHalfEven(n, d);
    RoundHalfEvenAtLeast(n, d, Two52);
    if e >= 0 {
      var p := Pow2(e);
      assert m * p * b == m * (b * p);
    }
  }

  /** The error of the nearest significand is at most `2^-53` of the scaled quotient. */
  lemma SignificandError(n: int, d: int, m: int)
    requires d > 0 && Two52 * d <= n
    requires 2 * n - d <= 2 * d * m <= 2 * n + d
    ensures Two53 * Abs(m * d - n) <= n
  {
    assert 2 * Abs(m * d - n) <= d;
  }

  /** The relative error of one rounding is at most 2^-53. */
  lemma RoundPositiveError(a: nat, b: nat)
    requires a > 0 && b > 0
    ensures var f := RoundPositive(a, b);
      Two53 * Abs(Num(f) * b - a * Den(f)) <= a * Den(f)
  {
    var n, d, m := RoundPositiveParts(a, b);
    SignificandError(n, d, m);
  }

  function Abs(x: int): nat {
    if x < 0 then -x else x
  }

  /** The relative error of one rounding is at most 2^-53, whatever the sign. */
  lemma RoundError(a: int, b: int)
    requires b > 0
    ensures var f := Round(a, b);
      Two53 * Abs(Num(f) * b - a * Den(f)) <= Abs(a) * Den(f)
  {
    if a > 0 {
      RoundPositiveError(a, b);
    } else if a < 0 {
      RoundPositiveError(-a, b);
      var g := RoundPositive(-a, b);
      assert Round(a, b) == Neg(g);
      NegatedError(Num(g), Den(g), -a, b);
    }
  }

  lemma NegatedError(x: int, y: int, a: int, b: int)
    ensures Abs((-x) * b - (-a) * y) == Abs(x * b - a * y)
  {
  }

  /** A significand within a half of `n / d` keeps every integer lower bound of it. */
  lemma NearestAtLeast(n: int, d: int, m: int, k: int)
    requires d > 0 && 2 * n - d <= 2 * d * m && n >= k * d
    ensures m >= k
  {
    if m < k {
      MulLe(2 * d, m, k - 1);
    }
  }

  /** A quotient of at least the integer `c` (below 2^52) rounds to a double of at least `c`. */
  lemma RoundAtLeast(a: int, b: int, c: int)
    requires b > 0 && 0 <= c < Two52 && a >= c * b
    ensures Num(Round(a, b)) >= c * Den(Round(a, b))
  {
    var f := Round(a, b);
    if a > 0 {
      assert f == RoundPositive(a, b);
      var n, d, m := RoundPositiveParts(a, b);
      var p := Den(f);
      if f.e >= 0 {
        MulLe(m, 1, Pow2(f.e));
        assert p == 1 && Num(f) >= Two52;
        assert c * p == c;
      } else {
        MulLe(p, c * b, a);
        assert n == a * p && d == b;
        assert n >= (c * p) * d;
        NearestAtLeast(n, d, m, c * p);
        assert Num(f) == m;
      }
    } else {
      if c > 0 {
        MulLe(c, 1, b);
      }
      assert c == 0 && Num(f) == 0;
    }
  }

  /** A quotient of at most `-c` rounds to a double of at most `-c`. */
  lemma RoundAtMost(a: int, b: int, c: int)
    requires b > 0 && 0 <= c < Two52 && a <= -c * b
    ensures Num(Round(a, b)) <= -c * Den(Round(a, b))
  {
    RoundAtLeast(-a, b, c);
    RoundNeg(a, b);
    NegatedBound(Num(Round(a, b)), Den(Round(a, b)), c);
  }

  lemma NegatedBound(x: int, y: int, c: int)
    requires -x >= c * y
    ensures x <= -c * y
  {
  }

  /** `Math.round` lies within a half of its argument, halves going up. */
  lemma MathRoundBounds(f: Float)
    ensures var r := MathRound(f);
      2 * Den(f) * r <= 2 * Num(f) + Den(f) < 2 * Den(f) * r + 2 * Den(f)
  {
  }

  /** `Math.round` keeps integer bounds on its argument. */
  lemma MathRoundAtLeast(f: Float, c: int)
    requires Num(f) >= c * Den(f)
    ensures MathRound(f) >= c
  {
    var r := MathRound(f);
    MathRoundBounds(f);
    if r < c {
      MulLe(2 * Den(f), r + 1, c);
    }
  }

  lemma MathRoundAtMost(f: Float, c: int)
    requires Num(f) <= c * Den(f)
    ensures MathRound(f) <= c
  {
    var r := MathRound(f);
    MathRoundBounds(f);
    if r > c {
      MulLe(2 * Den(f), c + 1, r);
    }
  }

  // ---------------------------------------------------------------------------
  // `x / y * k` and its rounding

  /** `Abs(p * q) == Abs(p) * q` for a non-negative `q`. */
  lemma AbsScale(p: int, q: int)
    requires q >= 0
    ensures Abs(p * q) == Abs(p) * q
  {
  }

  /** The bound on `|N1| y` that one rounding of `x / y` leaves. */
  lemma QuotientMagnitude(x: int, y: int, n1: int, d1: int)
    requires y > 0 && d1 > 0
    requires Two53 * Abs(n1 * y - x * d1) <= Abs(x) * d1
    ensures Abs(n1) * y <= 2 * Abs(x) * d1
  {
    AbsScale(n1, y);
    AbsScale(x, d1);
    assert Abs(n1 * y) <= Abs(x * d1) + Abs(n1 * y - x * d1);
  }

  /** The triangle inequality. */
  lemma Triangle(p: int, q: int)
    ensures Abs(p + q) <= Abs(p) + Abs(q)
  {
  }

  /** The ring identity behind the composed error. */
  lemma ComposeIdentity(x: int, y: int, k: int, n1: int, d1: int, n2: int, d2: int)
    ensures (n2 * y - k * x * d2) * d1
         == (n2 * d1 - k * n1 * d2) * y + (n1 * y - x * d1) * (k * d2)
  {
  }

  /** The identity `z d1 = x y + w kd`, taken to magnitudes. */
  lemma AbsCombination(z: int, x: int, w: int, y: int, kd: int, d1: int)
    requires y >= 0 && kd >= 0 && d1 >= 0
    requires z * d1 == x * y + w * kd
    ensures Abs(z) * d1 <= Abs(x) * y + Abs(w) * kd
  {
    Triangle(x * y, w * kd);
    AbsScale(x, y);
    AbsScale(w, kd);
    AbsScale(z, d1);
  }

  /** The first rounding's error, carried through the second product. */
  lemma CarriedError(a: int, u: int, w: int, kd: int, y: int, d1: int)
    requires a >= 0 && u >= 0 && kd >= 0 && y > 0
    requires Two53 * a <= u * kd
    requires u * y <= 2 * w * d1
    ensures Two53 * a * y <= 2 * w * d1 * kd
  {
    MulLe(y, Two53 * a, u * kd);
    MulLe(kd, u * y, 2 * w * d1);
  }

  /** `d1 p <= d1 q` with `d1 > 0` gives `p <= q`. */
  lemma CancelLe(d1: int, p: int, q: int)
    requires d1 > 0 && d1 * p <= d1 * q
    ensures p <= q
  {
    if p > q {
      MulLt(d1, q, p);
    }
  }

  /**
   * The composed bound on magnitudes alone: `c` is the final error, `a` and
   * `b` the two rounding errors, `u` the magnitude of the first result and
   * `w` that of `x`.
   */
  lemma ComposeBound(a: int, b: int, c: int, u: int, w: int, k: nat, d2: int, y: int, d1: int)
    requires a >= 0 && b >= 0 && c >= 0 && u >= 0 && w >= 0 && d2 > 0 && y > 0 && d1 > 0
    requires c * d1 <= a * y + b * (k * d2)
    requires Two53 * a <= k * u * d2
    requires u * y <= 2 * w * d1
    requires Two53 * b <= w * d1
    ensures Two53 * c <= 3 * k * w * d2
  {
    var kd := k * d2;
    assert Two53 * a <= u * kd;
    CarriedError(a, u, w, kd, y, d1);
    MulLe(kd, Two53 * b, w * d1);
    MulLe(Two53, c * d1, a * y + b * kd);
    CancelLe(d1, Two53 * c, 3 * w * kd);
  }

  /**
   * Two roundings, of `x / y` to `n1 / d1` and of `(n1 / d1) * k` to
   * `n2 / d2`, leave `n2 / d2` within `3 k |x| / y * 2^-53` of `k x / y`.
   */
  lemma ComposeError(x: int, y: int, k: nat, n1: int, d1: int, n2: int, d2: int)
    requires y > 0 && d1 > 0 && d2 > 0
    requires Two53 * Abs(n1 * y - x * d1) <= Abs(x) * d1
    requires Two53 * Abs(n2 * d1 - k * n1 * d2) <= k * Abs(n1) * d2
    ensures Two53 * Abs(n2 * y - k * x * d2) <= 3 * k * Abs(x) * d2
  {
    ComposeIdentity(x, y, k, n1, d1, n2, d2);
    AbsCombination(n2 * y - k * x * d2, n2 * d1 - k * n1 * d2, n1 * y - x * d1, y, k * d2, d1);
    QuotientMagnitude(x, y, n1, d1);
    ComposeBound(Abs(n2 * d1 - k * n1 * d2), Abs(n1 * y - x * d1), Abs(n2 * y - k * x * d2),
                 Abs(n1), Abs(x), k, d2, y, d1);
  }

  /** The error bound of `Times(Round(x, y), k)` against the exact `k x / y`. */
  lemma ScaledQuotientError(x: int, y: int, k: nat)
    requires y > 0
    ensures var r := Times(Round(x, y), k);
      Two53 * Abs(Num(r) * y - k * x * Den(r)) <= 3 * k * Abs(x) * Den(r)
  {
    var q := Round(x, y);
    var r := Times(q, k);
    RoundError(x, y);
    RoundError(k * Num(q), Den(q));
    AbsScale(Num(q), k);
    assert Abs(k * Num(q)) == k * Abs(Num(q));
    ComposeError(x, y, k, Num(q), Den(q), Num(r), Den(r));
  }

  /** The upper half of `NearestInteger`. */
  lemma NearestBelow(n: int, d: int, r: int, v: int, y: int)
    requires d > 0 && y > 0
    requires 2 * d * r <= 2 * n + d
    requires 2 * (n * y) < 2 * (v * d) + d
    ensures 2 * y * r - 2 * v <= y
  {
    MulLe(y, 2 * d * r, 2 * n + d);
    assert d * (2 * y * r) < d * (2 * v + y + 1);
    if 2 * y * r > 2 * v + y {
      MulLe(d, 2 * v + y + 1, 2 * y * r);
    }
  }

  /** The lower half of `NearestInteger`. */
  lemma NearestAbove(n: int, d: int, r: int, v: int, y: int)
    requires d > 0 && y > 0
    requires 2 * n + d < 2 * d * r + 2 * d
    requires 2 * (v * d) < 2 * (n * y) + d
    ensures -y <= 2 * y * r - 2 * v
  {
    MulLt(y, 2 * n + d, 2 * d * r + 2 * d);
    assert d * (2 * v - y - 1) < d * (2 * y * r);
    if 2 * y * r < 2 * v - y {
      MulLe(d, 2 * y * r, 2 * v - y - 1);
    }
  }

  /**
   * A double closer to `v / y` than `1 / (2 y)` rounds to a nearest integer of
   * `v / y`: one within a half of it, either one at a tie.
   */
  lemma MathRoundNear(f: Float, v: int, y: int)
    requires y > 0 && 2 * Abs(Num(f) * y - v * Den(f)) < Den(f)
    ensures -y <= 2 * y * MathRound(f) - 2 * v <= y
  {
    MathRoundBounds(f);
    NearestBelow(Num(f), Den(f), MathRound(f), v, y);
    NearestAbove(Num(f), Den(f), MathRound(f), v, y);
  }
}
