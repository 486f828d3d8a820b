/** Inflation decay: the months and blocks of an elapsed time, and the rate they lead to. */
module Inflation {
  import opened Bytes
  import opened Decimal

  const MONTHS_IN_YEAR: nat := 12

  // ---- the exponent is decomposed exactly --------------------------------------------------------------

  /** The fraction r / b falls short of one by more than half of the last place. */
  lemma Shortfall(r: nat, b: nat, j: nat)
    requires r < b < 2 * ONE && j == r * (ONE * ONE) / b
    ensures 2 * j + ONE < 2 * (ONE * ONE)
  {
    var s := ONE * ONE;
    var gap := s - j;
    assert j * b <= r * s;
    MulMono(r, b - 1, s);
    assert gap * b >= s;
    assert 2 * (gap * b) == (2 * gap) * b;
    if 2 * gap <= ONE {
      MulMono(2 * gap, ONE, b);
    }
  }

  lemma WholePart(a: nat, b: nat)
    requires b > 0
    ensures a * (ONE * ONE) / b == (a / b) * (ONE * ONE) + (a % b) * (ONE * ONE) / b
  {
    var s, n, r := ONE * ONE, a / b, a % b;
    var j := r * s / b;
    assert a * s == (n * s + j) * b + (r * s) % b by {
      assert a == n * b + r;
      assert (n * b) * s == (n * s) * b;
      assert r * s == j * b + (r * s) % b;
    }
    DivUnique(a * s, b, n * s + j, (r * s) % b);
  }

  lemma ChopWhole(n: nat, j: nat)
    requires 2 * j + ONE < 2 * (ONE * ONE)
    ensures ChopNat(n * (ONE * ONE) + j) / ONE == n
  {
    var k := n * (ONE * ONE) + j;
    ChopNear(k);
    var c := ChopNat(k);
    DivUnique(c, ONE, n, c - n * ONE);
  }

  lemma ChopQuotient(a: nat, b: nat)
    requires 0 < b < 2 * ONE
    ensures ChopNat(a * (ONE * ONE) / b) / ONE == a / b
  {
    var n, r := a / b, a % b;
    TruncDivIs(a, b);
    WholePart(a, b);
    var j := r * (ONE * ONE) / b;
    Shortfall(r, b, j);
    ChopWhole(n, j);
  }

  /** For fewer than 2 * 10^18 blocks a month, rounding never adds a month. */
  lemma MonthsExact(elapsed: nat, month: nat)
    requires 0 < month < 2 * ONE
    ensures WholeQuo(elapsed, month) == elapsed / month
    ensures WholeQuo(elapsed, month) * month + elapsed % month == elapsed
  {
    ChopQuotient(elapsed, month);
  }

  /** The bound is tight: from there on, the last block of the first month counts as a whole month. A 64-bit number of
      blocks per year has fewer than 2^64 / 12 < 2 * 10^18 blocks a month, so the keeper never meets this case. */
  lemma MonthsRoundUp(month: nat)
    requires month >= 2 * ONE
    ensures WholeQuo(month - 1, month) == 1
  {
    var s := ONE * ONE;
    var k := (month - 1) * s / month;
    var rest := (month - 1) * s % month;
    var gap := s - k;
    assert gap * month == s + rest;
    if gap > ONE / 2 {
      MulMono(ONE / 2 + 1, gap, month);
    }
    if gap < 1 {
      MulMono(gap, 0, month);
    }
    assert 1 <= gap <= ONE / 2;
    DivUnique(k, ONE, ONE - 1, ONE - gap);
  }

  // ---- the decayed rate --------------------------------------------------------------------------------

  /** base * x^n * y^r, where the elapsed blocks are n months and r blocks. */
  function Decayed(base: int, x: int, y: int, elapsed: nat, month: nat): int
    requires month > 0
  {
    Mul(base, Mul(Power(x, WholeQuo(elapsed, month)), Power(y, elapsed % month)))
  }

  lemma DecayedBound(base: nat, x: nat, y: nat, elapsed: nat, month: nat)
    requires month > 0 && x <= ONE && y <= ONE
    ensures 0 <= Decayed(base, x, y, elapsed, month) <= base
  {
    var whole, part := Power(x, WholeQuo(elapsed, month)), Power(y, elapsed % month);
    PowerBound(x, WholeQuo(elapsed, month));
    PowerBound(y, elapsed % month);
    MulShrinks(whole, part);
    MulShrinks(base, Mul(whole, part));
  }

  /** Full decay: everything at the epoch itself, nothing after it. */
  lemma DecayedFully(base: nat, elapsed: nat, month: nat)
    requires 0 < month < 2 * ONE
    ensures Decayed(base, 0, 0, elapsed, month) == if elapsed == 0 then base else 0
  {
    var n, r := WholeQuo(elapsed, month), elapsed % month;
    MonthsExact(elapsed, month);
    PowerZero(n);
    PowerZero(r);
    MulUnit(base);
    MulUnit(ONE);
    MulUnit(0);
    assert n == 0 && r == 0 <==> elapsed == 0;
    assert Mul(base, 0) == 0;
  }

  /** At whole months the rate does not depend on the root at all. */
  lemma DecayedWhole(base: nat, x: nat, y: int, n: nat, month: nat)
    requires 0 < month < 2 * ONE && x <= ONE
    ensures n * month >= 0 && Decayed(base, x, y, n * month, month) == Mul(base, Power(x, n))
  {
    MulMono(0, n, month);
    DivUnique(n * month, month, n, 0);
    MonthsExact(n * month, month);
    PowerBound(x, n);
    MulUnit(Power(x, n));
    assert Power(y, 0) == ONE;
  }

  lemma PowMultiple(root: real, x: real, n: nat, month: nat, whole: nat)
    requires Pow(root, month) == x && whole == n * month
    ensures Pow(x, n) == Pow(root, whole)
  {
    PowPow(root, n, month);
  }

  lemma PowSum(x: real, a: nat, b: nat, c: nat)
    requires a + b == c
    ensures Times(Pow(x, a), Pow(x, b)) == Pow(x, c)
  {
    PowAdd(x, a, b);
  }

  lemma ExactSplit(root: real, x: real, n: nat, r: nat, month: nat, elapsed: nat)
    requires Pow(root, month) == x && n * month + r == elapsed
    ensures Times(Pow(x, n), Pow(root, r)) == Pow(root, elapsed)
  {
    MulMono(0, n, month);
    var whole: nat := n * month;
    PowMultiple(root, x, n, month, whole);
    PowSum(root, whole, r, elapsed);
  }

  lemma Scaled(m: real, b: real, f: real, z: real, e: real)
    requires b >= 0.0 && Within(m, b * f, HALF) && Within(f, z, e)
    ensures Within(m, b * z, HALF + b * e)
  {
    NonNegative(b, f - z + e);
    NonNegative(b, z - f + e);
    assert b * (f - z + e) == b * f - b * z + b * e;
    assert b * (z - f + e) == b * z - b * f + b * e;
  }

  /** The error of the factor after n months and r blocks. */
  ghost function FactorError(n: nat, r: nat, delta: real): real {
    n as real * (0.0 + HALF) + r as real * (delta + HALF) + HALF
  }

  lemma PowersNear(x: int, y: int, n: nat, r: nat, root: real, delta: real)
    requires 0 <= x <= ONE && Near(y, root, delta)
    ensures Near(Mul(Power(x, n), Power(y, r)), Times(Pow(Real(x), n), Pow(root, r)), FactorError(n, r, delta))
  {
    RealUnit(x);
    PowerNear(x, n, Real(x), 0.0);
    PowerNear(y, r, root, delta);
    MulMultiplies(Power(x, n), Power(y, r), Pow(Real(x), n), Pow(root, r),
                  n as real * (0.0 + HALF), r as real * (delta + HALF));
  }

  lemma FactorNear(x: int, y: int, n: nat, r: nat, month: nat, elapsed: nat, root: real, delta: real)
    requires 0 <= x <= ONE && Near(y, root, delta) && Pow(root, month) == Real(x) && n * month + r == elapsed
    ensures Near(Mul(Power(x, n), Power(y, r)), Pow(root, elapsed), FactorError(n, r, delta))
  {
    PowersNear(x, y, n, r, root, delta);
    ExactSplit(root, Real(x), n, r, month, elapsed);
  }

  lemma ScaledNear(base: nat, f: int, z: real, e: real)
    requires Near(f, z, e)
    ensures Within(Real(Mul(base, f)), Times(Real(base), z), HALF + Times(Real(base), e))
  {
    MulNear(base, f);
    Scaled(Real(Mul(base, f)), Real(base), Real(f), z, e);
  }

  /** Continuous decay: if y is within delta of the month-th root of x, the rate is base * root^elapsed, that
      is base * x^(elapsed / month), up to the stated error. */
  lemma DecayedNear(base: nat, x: int, y: int, elapsed: nat, month: nat, root: real, delta: real)
    requires 0 < month < 2 * ONE && 0 <= x <= ONE && Near(y, root, delta) && Pow(root, month) == Real(x)
    ensures
      Within(Real(Decayed(base, x, y, elapsed, month)), Times(Real(base), Pow(root, elapsed)),
             HALF + Times(Real(base), FactorError(WholeQuo(elapsed, month), elapsed % month, delta)))
  {
    var n, r := WholeQuo(elapsed, month), elapsed % month;
    MonthsExact(elapsed, month);
    FactorNear(x, y, n, r, month, elapsed, root, delta);
    ScaledNear(base, Mul(Power(x, n), Power(y, r)), Pow(root, elapsed), FactorError(n, r, delta));
  }
}
