/** Exact-real counterparts of the JavaScript numeric operators the scenes rely on.
    JavaScript's `%` truncates toward zero (the remainder takes the sign of the
    dividend), unlike Dafny's Euclidean `%`; both are written out here on `real`. */
module JsMath {

  /** `Math.PI`, as the decimal JavaScript prints for it. */
  const Pi: real := 3.141592653589793

  const TwoPi: real := 2.0 * Pi

  function Abs(x: real): real {
    if x < 0.0 then -x else x
  }

  function Max(a: real, b: real): real {
    if a < b then b else a
  }

  function Min(a: real, b: real): real {
    if a < b then a else b
  }

  /** A uniform draw of `Math.random()`, in [0, 1). */
  predicate IsNoise(r: real) {
    0.0 <= r < 1.0
  }

  /** Rounding toward zero, as JavaScript's division-then-truncate in `%` does. */
  function Trunc(x: real): (r: int)
    ensures 0.0 <= x ==> r as real <= x < r as real + 1.0
    ensures x <= 0.0 ==> r as real - 1.0 < x <= r as real
  {
    if x >= 0.0 then x.Floor else -((-x).Floor)
  }

  /** JavaScript `a % m` for a positive divisor: the remainder of truncated division. */
  function JsRem(a: real, m: real): (r: real)
    requires m > 0.0
    ensures 0.0 <= a ==> 0.0 <= r < m
    ensures a <= 0.0 ==> -m < r <= 0.0
  {
    var q := Trunc(a / m);
    DivBounds(a, m, q);
    a - m * q as real
  }

  /** The floored ("mathematical") modulus, always in [0, m). */
  function EuclidMod(a: real, m: real): (r: real)
    requires m > 0.0
    ensures 0.0 <= r < m
  {
    var q := (a / m).Floor;
    DivBounds(a, m, q);
    a - m * q as real
  }

  /** If q is within one of a / m (from below or above), a - m q is within m of zero. */
  lemma DivBounds(a: real, m: real, q: int)
    requires m > 0.0
    ensures q as real <= a / m < q as real + 1.0 ==> 0.0 <= a - m * q as real < m
    ensures q as real - 1.0 < a / m <= q as real ==> -m < a - m * q as real <= 0.0
  {
    var d := a / m;
    assert m * d == a;
    PositiveScaling(m, d, q as real);
    ScaleBounds(a - m * q as real, m, d - q as real);
  }

  /** Multiplying by a positive m scales the unit intervals [0, 1) and (-1, 0]:
      r = m x lies in [0, m) or (-m, 0] accordingly. */
  lemma ScaleBounds(r: real, m: real, x: real)
    requires m > 0.0 && r == m * x
    ensures 0.0 <= x < 1.0 ==> 0.0 <= r < m
    ensures -1.0 < x <= 0.0 ==> -m < r <= 0.0
  {
    if 0.0 <= x < 1.0 {
      ProductNonNegative(r, m, x);
      ProductBelow(r, m, x);
    }
    if -1.0 < x <= 0.0 {
      ProductNonPositive(r, m, x);
      ProductAbove(r, m, x);
    }
  }

  lemma ProductNonNegative(r: real, m: real, x: real)
    requires m > 0.0 && r == m * x && 0.0 <= x
    ensures 0.0 <= r
  {
  }

  lemma ProductNonPositive(r: real, m: real, x: real)
    requires m > 0.0 && r == m * x && x <= 0.0
    ensures r <= 0.0
  {
  }

  lemma ProductBelow(r: real, m: real, x: real)
    requires m > 0.0 && r == m * x && x < 1.0
    ensures r < m
  {
    assert m - r == m * (1.0 - x);
  }

  lemma ProductAbove(r: real, m: real, x: real)
    requires m > 0.0 && r == m * x && -1.0 < x
    ensures -m < r
  {
    assert m + r == m * (1.0 + x);
  }

  /** Sign and distribution facts for multiplication by a positive m. */
  lemma PositiveScaling(m: real, y: real, z: real)
    requires m > 0.0
    ensures y > 0.0 ==> m * y > 0.0
    ensures y >= 0.0 ==> m * y >= 0.0
    ensures m * y == -(m * (-y))
    ensures m * (1.0 - y) == m - m * y
    ensures m * (1.0 + y) == m + m * y
    ensures m * (y - z) == m * y - m * z
  {
  }

  /** A product with a positive left factor has the sign of its right factor. */
  lemma PositiveFactor(m: real, y: real)
    requires m > 0.0 && m * y > 0.0
    ensures y > 0.0
  {
  }

  /** Multiplying by a non-negative factor preserves order. */
  lemma MulMonotone(a: real, x: real, y: real)
    requires 0.0 <= a && x <= y
    ensures a * x <= a * y
  {
    assert a * y - a * x == a * (y - x);
  }

  /** A positive factor can be cancelled from both sides of an equation. */
  lemma CancelPositive(a: real, b: real, n: real)
    requires 0.0 < n && a * n == b * n
    ensures a == b
  {
    assert (a - b) * n == 0.0;
    assert a - b == (a - b) * n / n;
  }

  /** A fraction x = d f of a span d, for f in [0, 1], lies between 0 and d. */
  lemma SpanFraction(d: real, f: real, x: real)
    requires x == d * f
    ensures 0.0 <= f <= 1.0 && 0.0 <= d ==> 0.0 <= x <= d
    ensures 0.0 <= f <= 1.0 && d <= 0.0 ==> d <= x <= 0.0
    ensures f == 0.0 ==> x == 0.0
  {
    if 0.0 <= f <= 1.0 {
      if 0.0 <= d {
        MulMonotone(d, 0.0, f);
        MulMonotone(d, f, 1.0);
      } else {
        MulMonotone(-d, 0.0, f);
        MulMonotone(-d, f, 1.0);
        assert (-d) * f == -(d * f);
      }
    }
  }

  /** On non-negative dividends the JavaScript remainder agrees with the floored modulus. */
  lemma {:induction false} JsRemIsEuclidModOnNonNegatives(a: real, m: real)
    requires m > 0.0 && 0.0 <= a
    ensures JsRem(a, m) == EuclidMod(a, m)
  {
    assert Trunc(a / m) == (a / m).Floor by {
      assert a / m >= 0.0 by { assert a == m * (a / m); }
    }
  }

  /** Adding whole periods does not change the floored modulus. */
  lemma {:induction false} EuclidModPeriodic(a: real, m: real, k: int)
    requires m > 0.0
    ensures EuclidMod(a + m * k as real, m) == EuclidMod(a, m)
  {
    var q := (a / m).Floor;
    var b := a + m * k as real;
    assert b / m == a / m + k as real by {
      assert b == m * (a / m + k as real);
    }
    assert (a / m + k as real).Floor == q + k;
    assert EuclidMod(b, m) == b - m * (q + k) as real;
    assert m * (q + k) as real == m * q as real + m * k as real;
  }

  /** A quotient f = r / m of a remainder r in [0, m) lies in [0, 1). */
  lemma FractionBounds(r: real, m: real, f: real)
    requires m > 0.0 && m * f == r && 0.0 <= r < m
    ensures 0.0 <= f < 1.0
  {
    assert m * (1.0 - f) == m - r;
    PositiveFactor(m, 1.0 - f);
  }

  /** The floored modulus is determined by any representation a = m q + r with r in [0, m). */
  lemma {:induction false} EuclidModUnique(a: real, m: real, q: int, r: real)
    requires m > 0.0 && 0.0 <= r < m && a == m * q as real + r
    ensures EuclidMod(a, m) == r
  {
    assert a / m == q as real + r / m;
    assert 0.0 <= r / m < 1.0 by {
      assert m * (r / m) == r;
      FractionBounds(r, m, r / m);
    }
    assert (a / m).Floor == q;
  }

  /** Adding whole periods to a non-negative dividend does not change JavaScript's `%`. */
  lemma {:induction false} JsRemPeriodic(a: real, m: real, k: nat)
    requires m > 0.0 && 0.0 <= a
    ensures JsRem(a + m * k as real, m) == JsRem(a, m)
  {
    JsRemIsEuclidModOnNonNegatives(a, m);
    JsRemIsEuclidModOnNonNegatives(a + m * k as real, m);
    EuclidModPeriodic(a, m, k);
  }

  /** `((a % m) + m) % m`, the idiom the scenes use to wrap a possibly negative
      angle, is the floored modulus for every a. */
  lemma {:induction false} WrapIdiomIsEuclidMod(a: real, m: real)
    requires m > 0.0
    ensures JsRem(JsRem(a, m) + m, m) == EuclidMod(a, m)
  {
    var q := Trunc(a / m);
    var r := JsRem(a, m);
    assert a == m * q as real + r;
    JsRemIsEuclidModOnNonNegatives(r + m, m);
    if r == 0.0 {
      EuclidModUnique(r + m, m, 1, 0.0);
      EuclidModUnique(a, m, q, 0.0);
    } else if r > 0.0 {
      EuclidModUnique(r + m, m, 1, r);
      EuclidModUnique(a, m, q, r);
    } else {
      EuclidModUnique(r + m, m, 0, r + m);
      assert a == m * (q - 1) as real + (r + m);
      EuclidModUnique(a, m, q - 1, r + m);
    }
  }

  /** The wrap idiom gives the same value for dividends that differ by whole
      periods, negative ones included. */
  lemma WrapIdiomPeriodic(a: real, m: real, k: int)
    requires m > 0.0
    ensures JsRem(JsRem(a + m * k as real, m) + m, m) == JsRem(JsRem(a, m) + m, m)
  {
    WrapIdiomIsEuclidMod(a, m);
    WrapIdiomIsEuclidMod(a + m * k as real, m);
    EuclidModPeriodic(a, m, k);
  }
}
