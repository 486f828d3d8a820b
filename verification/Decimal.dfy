/** Decimals with 18 digits after the point, as integers scaled by 10^18, rounding half to even. */
module Decimal {
  import opened Bytes

  const ONE: int := 1_000_000_000_000_000_000

  /** Division by 10^18, rounding half to even. */
  function ChopNat(x: nat): (c: int)
    ensures c >= 0
  {
    var q, r := x / ONE, x % ONE;
    if 2 * r < ONE then q
    else if 2 * r > ONE then q + 1
    else if q % 2 == 0 then q
    else q + 1
  }

  function Chop(x: int): int {
    if x < 0 then -ChopNat(-x) else ChopNat(x)
  }

  function Mul(a: int, b: int): int {
    Chop(a * b)
  }

  /** Division that drops the remainder, as big integers do. */
  function TruncDiv(a: int, b: int): int
    requires b != 0
  {
    var q := (if a < 0 then -a else a) / (if b < 0 then -b else b);
    if (a < 0) == (b < 0) then q else -q
  }

  function Quo(a: int, b: int): int
    requires b != 0
  {
    Chop(TruncDiv(a * (ONE * ONE), b))
  }

  function Truncate(a: int): int {
    TruncDiv(a, ONE)
  }

  /** Square and multiply, with a rounding at each product. */
  function PowerLoop(mul: (int, int) -> int, d: int, tmp: int, i: nat): int
    requires i >= 1
    decreases i
  {
    if i == 1 then mul(d, tmp)
    else PowerLoop(mul, mul(d, d), if i % 2 != 0 then mul(tmp, d) else tmp, i / 2)
  }

  function Power(d: int, n: nat): int {
    if n == 0 then ONE else PowerLoop(Mul, d, ONE, n)
  }

  // ---- rounding --------------------------------------------------------------------------------------

  lemma ChopNear(x: nat)
    ensures 2 * ChopNat(x) * ONE <= 2 * x + ONE
    ensures 2 * x <= 2 * ChopNat(x) * ONE + ONE
  {
    var q, r := x / ONE, x % ONE;
    assert x == q * ONE + r;
  }

  /** A value at or below a whole number of units is not rounded above it. */
  lemma ChopBelow(x: nat, n: nat)
    requires x <= n * ONE
    ensures ChopNat(x) <= n
  {
    var q, r := x / ONE, x % ONE;
    assert x == q * ONE + r;
    if q >= n {
      assert q * ONE >= n * ONE;
    }
  }

  function Abs(x: int): nat {
    if x < 0 then -x else x
  }

  /** c units are nearest to x / 10^18, and on a tie c is even. */
  ghost predicate Nearest(x: int, c: int) {
    2 * Abs(c * ONE - x) < ONE || (2 * Abs(c * ONE - x) == ONE && c % 2 == 0)
  }

  lemma NearestUnique(x: int, c: int, d: int)
    requires Nearest(x, c) && Nearest(x, d)
    ensures c == d
  {
    assert (c - d) * ONE == (c * ONE - x) - (d * ONE - x);
  }

  lemma ChopNearest(x: nat)
    ensures Nearest(x, ChopNat(x))
  {
    var q, r := x / ONE, x % ONE;
    assert x == q * ONE + r;
  }

  /** Rounding is to the nearest unit, half to even, on both sides of zero. */
  lemma RoundsHalfToEven(x: int, c: int)
    ensures c == Chop(x) <==> Nearest(x, c)
  {
    if x < 0 {
      ChopNearest(-x);
      assert -ChopNat(-x) * ONE - x == -(ChopNat(-x) * ONE - (-x));
    } else {
      ChopNearest(x);
    }
    if Nearest(x, c) {
      NearestUnique(x, c, Chop(x));
    }
  }

  /** Division drops a remainder that has the sign of the dividend. */
  lemma DropsRemainder(a: int, b: int)
    requires b != 0
    ensures a - TruncDiv(a, b) * b == if a < 0 then -(Abs(a) % Abs(b)) else Abs(a) % Abs(b)
  {
    var m: int, n: int := Abs(a), Abs(b);
    Recombines(m, n);
    Signs(m / n, n);
  }

  lemma Recombines(m: int, n: int)
    requires n != 0
    ensures m == m / n * n + m % n
  {
  }

  lemma Signs(q: int, n: int)
    ensures q * -n == -(q * n) && -q * -n == q * n && -q * n == -(q * n)
  {
  }

  lemma MulUnit(a: nat)
    ensures Mul(a, ONE) == a && Mul(ONE, a) == a
  {
    assert a * ONE / ONE == a && a * ONE % ONE == 0;
  }

  /** A product with a factor between 0 and 1 does not exceed the other factor. */
  lemma MulShrinks(a: nat, b: nat)
    requires b <= ONE
    ensures 0 <= Mul(a, b) <= a
    ensures 0 <= Mul(b, a) <= a
  {
    assert 0 <= a * b <= a * ONE;
    ChopBelow(a * b, a);
    assert b * a == a * b;
  }

  lemma {:induction false} PowerLoopBound(d: nat, tmp: nat, i: nat)
    requires i >= 1 && d <= ONE && tmp <= ONE
    ensures 0 <= PowerLoop(Mul, d, tmp, i) <= ONE
    decreases i
  {
    MulShrinks(d, d);
    MulShrinks(tmp, d);
    if i > 1 {
      PowerLoopBound(Mul(d, d), if i % 2 != 0 then Mul(tmp, d) else tmp, i / 2);
    }
  }

  lemma PowerBound(d: nat, n: nat)
    requires d <= ONE
    ensures 0 <= Power(d, n) <= ONE
  {
    if n > 0 {
      PowerLoopBound(d, ONE, n);
    }
  }

  lemma {:induction false} PowerLoopZero(tmp: nat, i: nat)
    requires i >= 1 && tmp <= ONE
    ensures PowerLoop(Mul, 0, tmp, i) == 0
    decreases i
  {
    if i > 1 {
      MulShrinks(tmp, 0);
      PowerLoopZero(if i % 2 != 0 then Mul(tmp, 0) else tmp, i / 2);
    }
  }

  lemma PowerZero(n: nat)
    ensures Power(0, n) == if n == 0 then ONE else 0
  {
    if n > 0 {
      PowerLoopZero(ONE, n);
    }
  }

  // ---- the error of square and multiply ------------------------------------------------------------------

  /** Half a unit in the last place. */
  const HALF: real := 0.000_000_000_000_000_000_5

  /** The number that a decimal stands for. */
  function Real(a: int): real {
    a as real / 1_000_000_000_000_000_000.0
  }

  ghost function Pow(x: real, n: nat): real {
    if n == 0 then 1.0 else x * Pow(x, n - 1)
  }

  ghost predicate Within(a: real, b: real, e: real) {
    -e <= a - b <= e
  }

  ghost predicate Unit(a: real) {
    0.0 <= a <= 1.0
  }

  lemma RealUnit(a: int)
    ensures 0 <= a <= ONE <==> Unit(Real(a))
  {
  }

  lemma RealProduct(a: int, b: int)
    ensures Real(a) * Real(b) == (a * b) as real / (ONE * ONE) as real
  {
  }

  /** A rounded product is off by at most half a unit. */
  lemma MulNear(a: nat, b: nat)
    ensures Within(Real(Mul(a, b)), Real(a) * Real(b), HALF)
  {
    ChopNear(a * b);
    var c := Mul(a, b);
    assert 2 * c * ONE <= 2 * (a * b) + ONE && 2 * (a * b) <= 2 * c * ONE + ONE;
    RealProduct(a, b);
    assert Real(c) == (c * ONE) as real / (ONE * ONE) as real;
    assert HALF == ONE as real / (2 * ONE * ONE) as real;
  }

  lemma Scale(x: real, u: real, e: real)
    requires Unit(u) && -e <= x <= e
    ensures -e <= x * u <= e && -e <= u * x <= e
  {
    assert u * e <= e && u * -e >= -e;
    assert u * (e - x) >= 0.0 && u * (x + e) >= 0.0;
  }

  lemma ProductNear(a: real, b: real, x: real, y: real, e: real, f: real)
    requires Unit(b) && Unit(x) && Within(a, x, e) && Within(b, y, f)
    ensures Within(a * b, x * y, e + f)
  {
    assert a * b - x * y == (a - x) * b + x * (b - y);
    assert -e <= (a - x) * b <= e by { Scale(a - x, b, e); }
    assert -f <= x * (b - y) <= f by { Scale(b - y, x, f); }
  }

  lemma NonNegative(a: real, b: real)
    requires a >= 0.0 && b >= 0.0
    ensures a * b >= 0.0
  {
  }

  lemma UnitProduct(a: real, b: real)
    requires Unit(a) && Unit(b)
    ensures Unit(a * b)
  {
    NonNegative(a, b);
    NonNegative(a, 1.0 - b);
    assert a * (1.0 - b) == a - a * b;
  }

  /** What the loop computes without rounding. */
  ghost function ExactLoop(times: (real, real) -> real, x: real, t: real, i: nat): real
    requires i >= 1
    decreases i
  {
    if i == 1 then times(x, t)
    else ExactLoop(times, times(x, x), if i % 2 != 0 then times(t, x) else t, i / 2)
  }

  /** The error the loop accumulates. */
  ghost function LoopError(e: real, f: real, h: real, i: nat): real
    requires i >= 1
    decreases i
  {
    if i == 1 then e + f + h
    else LoopError(e + e + h, if i % 2 != 0 then f + e + h else f, h, i / 2)
  }

  /** Multiplying what is related adds up the errors, and h more. */
  ghost predicate Multiplies(
    near: (int, real, real) -> bool, mul: (int, int) -> int, times: (real, real) -> real, h: real)
  {
    forall a, b, x, y, e, f {:trigger near(a, x, e), near(b, y, f), mul(a, b), times(x, y)} ::
      near(a, x, e) && near(b, y, f) ==> near(mul(a, b), times(x, y), e + f + h)
  }

  /** So does the loop, product by product. */
  lemma {:induction false} LoopNear(
    near: (int, real, real) -> bool, mul: (int, int) -> int, times: (real, real) -> real, h: real,
    d: int, tmp: int, i: nat, x: real, t: real, e: real, f: real)
    requires i >= 1 && Multiplies(near, mul, times, h) && near(d, x, e) && near(tmp, t, f)
    ensures near(PowerLoop(mul, d, tmp, i), ExactLoop(times, x, t, i), LoopError(e, f, h, i))
    decreases i
  {
    if i > 1 {
      if i % 2 != 0 {
        LoopNear(near, mul, times, h, mul(d, d), mul(tmp, d), i / 2, times(x, x), times(t, x), e + e + h, f + e + h);
      } else {
        LoopNear(near, mul, times, h, mul(d, d), tmp, i / 2, times(x, x), t, e + e + h, f);
      }
    }
  }

  lemma ErrorStep(s: real, r: real, g: real, f: real, odd: bool)
    requires s == if odd then 2.0 * r + 1.0 else 2.0 * r
    ensures r * (g + g) + (if odd then f + g else f) == s * g + f
  {
    assert (2.0 * r + 1.0) * g == 2.0 * (r * g) + g;
  }

  /** The accumulated error is linear in the exponent. */
  lemma {:induction false} LoopErrorIs(e: real, f: real, h: real, i: nat)
    requires i >= 1
    ensures LoopError(e, f, h, i) == i as real * (e + h) + f
    decreases i
  {
    if i > 1 {
      var k, odd := i / 2, i % 2 != 0;
      var e', f' := e + e + h, if odd then f + e + h else f;
      LoopErrorIs(e', f', h, k);
      var g, g' := e + h, e' + h;
      assert g' == g + g;
      assert k as real * (e' + h) == k as real * (g + g);
      ErrorStep(i as real, k as real, g, f, odd);
      assert LoopError(e, f, h, i) == LoopError(e', f', h, k);
    }
  }

  function Times(x: real, y: real): real {
    x * y
  }

  lemma {:induction false} PowSquare(x: real, k: nat)
    ensures Pow(x * x, k) == Pow(x, 2 * k)
  {
    if k > 0 {
      PowSquare(x, k - 1);
      assert Pow(x, 2 * k) == x * (x * Pow(x, 2 * k - 2));
    }
  }

  lemma PowHalves(x: real, t: real, k: nat)
    ensures t * Pow(x * x, k) == t * Pow(x, 2 * k)
    ensures (t * x) * Pow(x * x, k) == t * Pow(x, 2 * k + 1)
  {
    PowSquare(x, k);
    assert (t * x) * Pow(x, 2 * k) == t * (x * Pow(x, 2 * k));
  }

  /** Without rounding, square and multiply is the power. */
  lemma {:induction false} ExactLoopIs(x: real, t: real, i: nat)
    requires i >= 1
    ensures ExactLoop(Times, x, t, i) == t * Pow(x, i)
    decreases i
  {
    if i == 1 {
      assert Pow(x, 1) == x * Pow(x, 0) == x;
    } else {
      PowHalves(x, t, i / 2);
      assert i == if i % 2 != 0 then 2 * (i / 2) + 1 else 2 * (i / 2);
      ExactLoopIs(Times(x, x), if i % 2 != 0 then Times(t, x) else t, i / 2);
    }
  }

  /** c stands for z up to e, both between 0 and 1. */
  ghost predicate Near(c: int, z: real, e: real) {
    0 <= c <= ONE && Unit(z) && Within(Real(c), z, e)
  }

  lemma Combined(m: real, a: real, b: real, x: real, y: real, e: real, f: real)
    requires Unit(b) && Unit(x) && Within(a, x, e) && Within(b, y, f) && Within(m, a * b, HALF)
    ensures Within(m, Times(x, y), e + f + HALF)
  {
    ProductNear(a, b, x, y, e, f);
  }

  lemma MulMultiplies(a: int, b: int, x: real, y: real, e: real, f: real)
    requires Near(a, x, e) && Near(b, y, f)
    ensures Near(Mul(a, b), Times(x, y), e + f + HALF)
  {
    MulShrinks(a, b);
    UnitProduct(x, y);
    RealUnit(b);
    MulNear(a, b);
    Combined(Real(Mul(a, b)), Real(a), Real(b), x, y, e, f);
  }

  lemma PowerLoopNear(d: int, n: nat, x: real, e: real)
    requires n > 0 && Near(d, x, e)
    ensures Near(Power(d, n), ExactLoop(Times, x, 1.0, n), LoopError(e, 0.0, HALF, n))
  {
    var near := (c: int, z: real, e: real) => Near(c, z, e);
    forall a, b, x, y, e, f | near(a, x, e) && near(b, y, f)
      ensures near(Mul(a, b), Times(x, y), e + f + HALF)
    {
      MulMultiplies(a, b, x, y, e, f);
    }
    LoopNear(near, Mul, Times, HALF, d, ONE, n, x, 1.0, e, 0.0);
  }

  lemma NearSame(c: int, z: real, z': real, e: real, e': real)
    requires Near(c, z, e) && z == z' && e == e'
    ensures Near(c, z', e')
  {
  }

  lemma ExactPower(x: real, n: nat)
    requires n > 0
    ensures ExactLoop(Times, x, 1.0, n) == Pow(x, n)
  {
    ExactLoopIs(x, 1.0, n);
  }

  lemma LinearError(e: real, n: nat)
    requires n > 0
    ensures LoopError(e, 0.0, HALF, n) == n as real * (e + HALF)
  {
    LoopErrorIs(e, 0.0, HALF, n);
  }

  lemma ZeroPowerNear(n: nat, e: real)
    requires n == 0
    ensures Near(ONE, 1.0, n as real * (e + HALF))
  {
    assert n as real * (e + HALF) == 0.0;
  }

  /** The rounded power of an approximation: each factor contributes its error and half of the last place. */
  lemma PowerNear(d: int, n: nat, x: real, e: real)
    requires Near(d, x, e)
    ensures Near(Power(d, n), Pow(x, n), n as real * (e + HALF))
  {
    if n == 0 {
      ZeroPowerNear(n, e);
    } else {
      PowerLoopNear(d, n, x, e);
      ExactPower(x, n);
      LinearError(e, n);
      NearSame(Power(d, n), ExactLoop(Times, x, 1.0, n), Pow(x, n),
               LoopError(e, 0.0, HALF, n), n as real * (e + HALF));
    }
  }

  // ---- laws of powers ----------------------------------------------------------------------------------

  lemma {:induction false} PowAdd(x: real, a: nat, b: nat)
    ensures Pow(x, a + b) == Pow(x, a) * Pow(x, b)
  {
    if a > 0 {
      PowAdd(x, a - 1, b);
      assert Pow(x, a + b) == x * Pow(x, a - 1 + b);
    }
  }

  lemma {:induction false} PowPow(x: real, a: nat, b: nat)
    ensures Pow(x, a * b) == Pow(Pow(x, b), a)
  {
    if a > 0 {
      PowPow(x, a - 1, b);
      PowAdd(x, b, (a - 1) * b);
      assert a * b == b + (a - 1) * b;
    }
  }

  // ---- whole quotients ---------------------------------------------------------------------------------

  lemma SmallMultiple(k: int, d: nat)
    requires 0 - d < k * d < d
    ensures k == 0
  {
    if k >= 1 {
      MulMono(1, k, d);
    } else if k <= -1 {
      MulMono(k, -1, d);
    }
  }

  lemma DivUnique(x: nat, d: nat, q: int, r: int)
    requires 0 <= r < d && x == q * d + r
    ensures x / d == q && x % d == r
  {
    var q', r' := x / d, x % d;
    assert (q - q') * d == r' - r;
    SmallMultiple(q - q', d);
  }

  lemma TruncDivIs(a: nat, b: nat)
    requires b > 0
    ensures TruncDiv(a, b) == a / b >= 0
  {
    var q := a / b;
    assert a == q * b + a % b;
    if q < 0 {
      MulMono(q, -1, b);
    }
  }

  /** The whole part of the rounded quotient of two whole numbers. */
  function WholeQuo(a: nat, b: nat): (n: nat)
    requires b > 0
    ensures n == ChopNat(a * (ONE * ONE) / b) / ONE
  {
    QuoScaled(a, b);
    Truncate(Quo(a * ONE, b * ONE))
  }

  lemma ScaledDiv(s: nat, b: nat)
    requires b > 0
    ensures s * ONE / (b * ONE) == s / b
  {
    var k, r := s / b, s % b;
    assert s == k * b + r;
    assert k * (b * ONE) == (k * b) * ONE;
    DivUnique(s * ONE, b * ONE, k, r * ONE);
  }

  lemma QuoIs(a: nat, b: nat)
    requires b > 0
    ensures a * (ONE * ONE) / b >= 0
    ensures Quo(a, b) == ChopNat(a * (ONE * ONE) / b)
  {
    TruncDivIs(a * (ONE * ONE), b);
  }

  lemma QuoScaled(a: nat, b: nat)
    requires b > 0
    ensures a * (ONE * ONE) / b >= 0
    ensures Truncate(Quo(a * ONE, b * ONE)) == ChopNat(a * (ONE * ONE) / b) / ONE
  {
    QuoIs(a * ONE, b * ONE);
    ScaledDiv(a * (ONE * ONE), b);
    assert a * (ONE * ONE) * ONE == (a * ONE) * (ONE * ONE);
  }
}
