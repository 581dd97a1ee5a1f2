/**
 * Kotlin numeric conversions that differ from Dafny's built-in operators.
 * Kotlin `Int /` and `Float.toInt()` truncate toward zero, `Float %` keeps the
 * sign of the dividend, and `roundToInt()` rounds half up; Dafny's `/`, `%` and
 * `.Floor` are Euclidean or floor-based, so each conversion is written out here.
 * Float arithmetic is modelled with `real` (no rounding).
 */
module Numerics {

  /** `Float.toInt()`: truncation toward zero. */
  function Trunc(x: real): (r: int)
    ensures 0.0 <= x ==> 0 <= r && r as real <= x < r as real + 1.0
    ensures x < 0.0 ==> r <= 0 && r as real - 1.0 < x <= r as real
  {
    if x >= 0.0 then x.Floor else -((-x).Floor)
  }

  /** Kotlin `Int / Int` for a positive divisor: the quotient truncated toward zero. */
  function TruncDiv(a: int, b: int): (q: int)
    requires b > 0
    ensures 0 <= a ==> 0 <= q && q * b <= a < q * b + b
    ensures a < 0 ==> q <= 0 && q * b - b < a <= q * b
  {
    TruncDivBounds(a, b);
    if a >= 0 then a / b else -((-a) / b)
  }

  lemma TruncDivBounds(a: int, b: int)
    requires b > 0
    ensures 0 <= a ==> 0 <= a / b && (a / b) * b <= a < (a / b) * b + b
    ensures a < 0 ==> 0 <= (-a) / b && -((-a) / b) * b - b < a <= -((-a) / b) * b
  {
    if a >= 0 {
      var q, r := a / b, a % b;
      assert a == q * b + r;
      if q < 0 { MulAtLeast(q, b); }
    } else {
      var p, r := (-a) / b, (-a) % b;
      assert -a == p * b + r;
      if p < 0 { MulAtLeast(p, b); }
      NegMul(p, b);
    }
  }

  lemma NegMul(p: int, b: int)
    ensures -p * b == -(p * b)
  {
  }

  /** Kotlin `Float % Float` (IEEE `fmod`) for a positive divisor: the remainder keeps the sign of `x`. */
  function FRem(x: real, m: real): (r: real)
    requires m > 0.0
    ensures 0.0 <= x ==> 0.0 <= r < m
    ensures x < 0.0 ==> -m < r <= 0.0
  {
    TruncScaled(x, m);
    x - (Trunc(x / m) as real) * m
  }

  /** `Trunc(x / m) * m` is within one `m` of `x`, on the side of zero. */
  lemma TruncScaled(x: real, m: real)
    requires m > 0.0
    ensures 0.0 <= x ==> (Trunc(x / m) as real) * m <= x < (Trunc(x / m) as real) * m + m
    ensures x < 0.0 ==> (Trunc(x / m) as real) * m - m < x <= (Trunc(x / m) as real) * m
  {
    var d := x / m;
    var q := Trunc(d) as real;
    if 0.0 <= x {
      MulLe(d, 0.0, m);
      BracketBelow(x, m, d, q);
    } else {
      MulLe(0.0, d, m);
      BracketAbove(x, m, d, q);
    }
  }

  lemma BracketBelow(x: real, m: real, d: real, q: real)
    requires m > 0.0
    requires d == x / m
    requires q <= d
    requires d < q + 1.0
    ensures q * m <= x < q * m + m
  {
    assert d * m == x;
    var p := q + 1.0;
    MulLe(q, d, m);
    assert q * m <= x;
    MulLe(d, p, m);
    assert x < p * m;
    assert p * m == q * m + m by { assert (q + 1.0) * m == q * m + m; }
  }

  lemma BracketAbove(x: real, m: real, d: real, q: real)
    requires m > 0.0
    requires d == x / m
    requires q - 1.0 < d
    requires d <= q
    ensures q * m - m < x <= q * m
  {
    assert d * m == x;
    var p := q - 1.0;
    assert p < d;
    MulLe(d, q, m);
    MulLe(p, d, m);
    assert p * m < x;
    assert p * m + m == q * m by { assert (p + 1.0) * m == p * m + m; }
    assert q * m - m == p * m;
  }

  lemma MulSucc(t: real, v: real)
    ensures (t + 1.0) * v == t * v + v
  {
  }

  lemma MulLe(a: real, b: real, m: real)
    requires m > 0.0
    ensures a <= b ==> a * m <= b * m
    ensures a < b ==> a * m < b * m
  {
  }

  /** `Float.roundToInt()` (`Math.round`): the nearest integer, halves rounded up. */
  function RoundToInt(x: real): (r: int)
    ensures r as real - 0.5 <= x < r as real + 0.5
  {
    (x + 0.5).Floor
  }

  function Min(a: int, b: int): (m: int)
    ensures m <= a && m <= b && (m == a || m == b)
  {
    if a <= b then a else b
  }

  function Max(a: int, b: int): (m: int)
    ensures a <= m && b <= m && (m == a || m == b)
  {
    if a >= b then a else b
  }

  function MinR(a: real, b: real): (m: real)
    ensures m <= a && m <= b && (m == a || m == b)
  {
    if a <= b then a else b
  }

  function MaxR(a: real, b: real): (m: real)
    ensures a <= m && b <= m && (m == a || m == b)
  {
    if a >= b then a else b
  }

  /** `Int.coerceIn(lo, hi)`; Kotlin throws when `lo > hi`. */
  function CoerceIn(v: int, lo: int, hi: int): (r: int)
    requires lo <= hi
    ensures lo <= r <= hi
    ensures lo <= v <= hi ==> r == v
    ensures v < lo ==> r == lo
    ensures hi < v ==> r == hi
  {
    if v < lo then lo else if v > hi then hi else v
  }

  /** `Float.coerceIn(lo, hi)`; Kotlin throws when `lo > hi`. */
  function CoerceInR(v: real, lo: real, hi: real): (r: real)
    requires lo <= hi
    ensures lo <= r <= hi
    ensures lo <= v <= hi ==> r == v
    ensures v < lo ==> r == lo
    ensures hi < v ==> r == hi
  {
    if v < lo then lo else if v > hi then hi else v
  }

  function AbsR(x: real): (r: real)
    ensures 0.0 <= r && (r == x || r == -x)
  {
    if x < 0.0 then -x else x
  }

  /** `kotlin.math.sign(Float)`, as an integer. */
  function Sign(x: real): (s: int)
    ensures -1 <= s <= 1
    ensures s == 0 <==> x == 0.0
    ensures s == 1 <==> x > 0.0
  {
    if x > 0.0 then 1 else if x < 0.0 then -1 else 0
  }

  /** `0.75.pow(n)` for the small exponents the boss uses, computed exactly. */
  function Pow(b: real, n: nat): (r: real)
    ensures 0.0 < b <= 1.0 ==> 0.0 < r <= 1.0
  {
    if n == 0 then 1.0
    else
      var p := Pow(b, n - 1);
      assert 0.0 < b <= 1.0 ==> b * p <= 1.0 * p by {
        if 0.0 < b <= 1.0 { MulLe(b, 1.0, p); }
      }
      b * p
  }

  // Integer multiplication and division facts the solver does not find alone.

  lemma MulNonNeg(a: int, b: int)
    requires a >= 0 && b >= 0
    ensures a * b >= 0
  {
  }

  lemma MulAtLeast(d: int, s: int)
    requires s >= 1
    ensures d >= 1 ==> d * s >= s
    ensures d <= -1 ==> d * s <= -s
  {
    if d >= 1 { assert d * s == (d - 1) * s + s; MulNonNeg(d - 1, s); }
    if d <= -1 { assert d * s == -((-d - 1) * s) - s; MulNonNeg(-d - 1, s); }
  }

  /** Quotient and remainder are determined by `a == q * s + r` with `0 <= r < s`. */
  lemma DivUnique(a: int, s: int, q: int, r: int)
    requires s >= 1 && a == q * s + r && 0 <= r < s
    ensures a / s == q && a % s == r
  {
    var q0, r0 := a / s, a % s;
    assert a == q0 * s + r0;
    var d := q - q0;
    assert d * s == r0 - r by { assert q * s - q0 * s == (q - q0) * s; }
    MulAtLeast(d, s);
  }

  lemma DivStep(k: nat, s: int)
    requires k > 0 && s >= 1
    ensures k % s == 0 ==> k / s == (k - 1) / s + 1
    ensures k % s != 0 ==> k / s == (k - 1) / s
  {
    var q, r := (k - 1) / s, (k - 1) % s;
    if r + 1 == s {
      assert k == (q + 1) * s + 0;
      DivUnique(k, s, q + 1, 0);
    } else {
      DivUnique(k, s, q, r + 1);
    }
  }

  lemma ModSucc(p: int, f: int)
    requires f >= 1
    ensures (p % f + 1) % f == (p + 1) % f
  {
    var q, r := p / f, p % f;
    if r + 1 == f {
      DivUnique(p + 1, f, q + 1, 0);
      DivUnique(r + 1, f, 1, 0);
    } else {
      DivUnique(p + 1, f, q, r + 1);
      DivUnique(r + 1, f, 0, r + 1);
    }
  }

  /** Multiplication by a positive factor preserves strict order, so it can be cancelled. */
  lemma MulLtCancel(a: int, b: int, s: int)
    requires s >= 1 && a * s < b * s
    ensures a < b
  {
    if a >= b {
      assert a * s - b * s == (a - b) * s;
      MulNonNeg(a - b, s);
    }
  }

  /** `k / s >= n` exactly when `k >= n * s`. */
  lemma DivAtLeast(k: int, s: int, n: int)
    requires s >= 1
    ensures k / s >= n <==> k >= n * s
  {
    var q, r := k / s, k % s;
    assert k == q * s + r;
    if q >= n {
      assert q * s - n * s == (q - n) * s;
      MulNonNeg(q - n, s);
    } else {
      assert n * s - q * s == (n - q) * s;
      MulAtLeast(n - q, s);
    }
  }
}
