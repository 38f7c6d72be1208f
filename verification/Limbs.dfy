/** Big-endian lists of base-10^7 limbs and the real numbers they stand for. */
module Limbs {
  import opened Basics

  /** Limb base and decimal digits per limb. */
  const LIMB_BASE := 10_000_000
  const LIMB_DIGITS := 7

  // ----- Powers of ten -----------------------------------------------------------

  ghost function Ten(k: int): real
    decreases if k < 0 then -k else k
  {
    if k == 0 then 1.0 else if k > 0 then 10.0 * Ten(k - 1) else Ten(k + 1) / 10.0
  }

  function Pow10(n: nat): nat {
    if n == 0 then 1 else 10 * Pow10(n - 1)
  }

  lemma TenStep(k: int)
    ensures Ten(k + 1) == 10.0 * Ten(k)
  {
  }

  lemma {:induction false} TenPositive(k: int)
    ensures Ten(k) > 0.0
    decreases if k < 0 then -k else k
  {
    if k > 0 { TenPositive(k - 1); }
    if k < 0 { TenPositive(k + 1); }
  }

  // ----- Multiples of a unit ------------------------------------------------------

  /** x units of size u. Proofs below hide this definition and use the four lemmas after it. */
  ghost function Units(x: int, u: real): real {
    x as real * u
  }

  lemma UnitsAdd(x: int, y: int, u: real)
    ensures Units(x + y, u) == Units(x, u) + Units(y, u)
    ensures Units(x - y, u) == Units(x, u) - Units(y, u)
    ensures Units(0, u) == 0.0 && Units(1, u) == u
  {
  }

  lemma UnitsNest(x: int, n: int, u: real)
    ensures Units(x * n, u) == Units(x, Units(n, u))
  {
    assert (x * n) as real == x as real * n as real;
  }

  lemma UnitsOrder(x: int, y: int, u: real)
    requires u > 0.0
    ensures x <= y ==> Units(x, u) <= Units(y, u)
    ensures x < y ==> Units(x, u) + u <= Units(y, u)
  {
    if x < y { UnitsStep(x, y, u); }
  }

  lemma UnitsStep(x: int, y: int, u: real)
    requires u > 0.0 && x < y
    ensures Units(x, u) + u <= Units(y, u)
  {
    var gap := (y - x - 1) as real;
    assert gap >= 0.0;
    assert gap * u >= 0.0;
    assert Units(y, u) == Units(x, u) + u + gap * u by { UnitsAdd(x, y - x, u); UnitsAdd(1, y - x - 1, u); }
  }

  /** The product of two reals; hidden in proofs like Units. */
  ghost function Product(x: real, y: real): real {
    x * y
  }

  lemma ProductAdd(x: real, y: real, z: real)
    ensures Product(x + y, z) == Product(x, z) + Product(y, z)
    ensures Product(z, x + y) == Product(z, x) + Product(z, y)
    ensures Product(0.0, z) == 0.0 == Product(z, 0.0)
  {
  }

  lemma ProductUnits(x: int, y: int, u: real, w: real)
    ensures Product(Units(x, u), Units(y, w)) == Units(x * y, Product(u, w))
  {
    assert (x * y) as real == x as real * y as real;
  }

  lemma {:induction false} TenProduct(j: int, k: int)
    ensures Product(Ten(j), Ten(k)) == Ten(j + k)
    decreases if k < 0 then -k else k
  {
    if k > 0 {
      TenProduct(j, k - 1);
      TenStep(k - 1);
      TenStep(j + k - 1);
      ProductTen(Ten(j), Ten(k - 1));
    } else if k < 0 {
      TenProduct(j, k + 1);
      TenStep(k);
      TenStep(j + k);
      ProductTen(Ten(j), Ten(k));
    }
  }

  lemma ProductTen(x: real, y: real)
    ensures Product(x, 10.0 * y) == 10.0 * Product(x, y)
  {
  }

  lemma WeightProduct(t: int, t': int)
    ensures Product(Weight(t), Weight(t')) == Weight(t + t')
  {
    TenProduct(7 * t, 7 * t');
    assert 7 * t + 7 * t' == 7 * (t + t');
  }

  /** The weight of the limb whose limb exponent is t. */
  ghost function Weight(t: int): real {
    Ten(7 * t)
  }

  lemma WeightStep(t: int)
    ensures Weight(t + 1) == Units(LIMB_BASE, Weight(t)) && Weight(t) > 0.0
  {
    var k := 7 * t;
    assert 7 * (t + 1) == k + 7;
    TenPositive(k);
    TenStep(k); TenStep(k + 1); TenStep(k + 2); TenStep(k + 3);
    TenStep(k + 4); TenStep(k + 5); TenStep(k + 6);
    assert Ten(k + 7) == 10_000_000.0 * Ten(k);
  }

  lemma {:induction false} TenAdd(k: int, n: nat)
    ensures Ten(k + n) == Units(Pow10(n), Ten(k))
  {
    UnitsAdd(0, 1, Ten(k));
    if n > 0 {
      hide Ten, Units;
      TenAdd(k, n - 1);
      TenStep(k + n - 1);
      UnitsTen(Pow10(n - 1), Ten(k));
    }
  }

  lemma UnitsTen(x: int, u: real)
    ensures Units(10 * x, u) == 10.0 * Units(x, u)
  {
    assert (10 * x) as real == 10.0 * x as real;
  }

  lemma {:induction false} TenMonotone(j: int, k: int)
    requires j <= k
    ensures 0.0 < Ten(j) <= Ten(k) && (j < k ==> 10.0 * Ten(j) <= Ten(k))
    decreases k - j
  {
    TenPositive(j);
    if j < k {
      TenStep(j);
      TenMonotone(j + 1, k);
    }
  }

  // ----- The value of a limb list --------------------------------------------------

  /** The value of d when its first limb has limb exponent top. */
  ghost function LimbValue(d: seq<int>, top: int): real {
    if d == [] then 0.0 else Units(d[0], Weight(top)) + LimbValue(d[1..], top - 1)
  }

  ghost predicate AreLimbs(d: seq<int>) {
    forall k :: 0 <= k < |d| ==> 0 <= d[k] < LIMB_BASE
  }

  function Zeros(n: nat): (z: seq<int>)
    ensures |z| == n && forall k :: 0 <= k < n ==> z[k] == 0
  {
    seq(n, _ => 0)
  }

  lemma {:induction false} LimbSplit(x: seq<int>, y: seq<int>, top: int)
    ensures LimbValue(x + y, top) == LimbValue(x, top) + LimbValue(y, top - |x|)
  {
    hide Weight, Units;
    if x == [] {
      assert x + y == y;
    } else {
      assert (x + y)[1..] == x[1..] + y;
      LimbSplit(x[1..], y, top - 1);
    }
  }

  lemma {:induction false} LimbZeros(z: seq<int>, top: int)
    requires forall k :: 0 <= k < |z| ==> z[k] == 0
    ensures LimbValue(z, top) == 0.0
  {
    hide Weight, Units;
    UnitsAdd(0, 0, Weight(top));
    if z != [] { LimbZeros(z[1..], top - 1); }
  }

  lemma {:induction false} LimbUpdate(d: seq<int>, k: nat, v: int, top: int)
    requires k < |d|
    ensures LimbValue(d[k := v], top) == LimbValue(d, top) + Units(v - d[k], Weight(top - k))
  {
    hide Weight, Units;
    if k == 0 {
      assert d[k := v][1..] == d[1..];
      UnitsAdd(v, d[0], Weight(top));
    } else {
      assert d[k := v][1..] == d[1..][k - 1 := v];
      LimbUpdate(d[1..], k - 1, v, top - 1);
      assert top - 1 - (k - 1) == top - k;
    }
  }

  lemma SingleLimb(x: int, t: int)
    ensures LimbValue([x], t) == Units(x, Weight(t))
  {
  }

  /** A limb list is worth less than one unit of the limb above it. */
  lemma {:induction false} LimbBound(d: seq<int>, top: int)
    requires AreLimbs(d)
    ensures 0.0 <= LimbValue(d, top) < Weight(top + 1)
  {
    hide Weight, Units;
    WeightStep(top);
    var w := Weight(top);
    UnitsAdd(0, 0, w);
    UnitsOrder(0, LIMB_BASE, w);
    if d != [] {
      LimbBound(d[1..], top - 1);
      assert top - 1 + 1 == top;
      UnitsOrder(d[0], LIMB_BASE, w);
      UnitsOrder(0, d[0], w);
    }
  }

  /** The first limb bounds a list from both sides. */
  lemma LimbLead(d: seq<int>, top: int)
    requires AreLimbs(d) && |d| > 0
    ensures Units(d[0], Weight(top)) <= LimbValue(d, top) < Units(d[0] + 1, Weight(top))
  {
    hide Weight, Units;
    LimbBound(d[1..], top - 1);
    assert top - 1 + 1 == top;
    UnitsAdd(d[0], 1, Weight(top));
  }

  /** Nonzero limbs make a nonzero value. */
  lemma {:induction false} LimbPositive(d: seq<int>, k: nat, top: int)
    requires AreLimbs(d) && k < |d| && d[k] > 0
    ensures LimbValue(d, top) > 0.0
  {
    hide Weight, Units;
    WeightStep(top);
    UnitsAdd(0, 0, Weight(top));
    UnitsOrder(0, d[0], Weight(top));
    if k == 0 {
      LimbLead(d, top);
    } else {
      LimbPositive(d[1..], k - 1, top - 1);
    }
  }

  // ----- List plumbing of the JavaScript code ----------------------------------------

  /** Reverse, push n zeros, reverse: the list shifted n limbs down. */
  method ShiftDown(d: seq<int>, n: nat) returns (r: seq<int>)
    ensures r == Zeros(n) + d
  {
    r := Reversed(d);
    var k := n;
    while k > 0
      invariant 0 <= k <= n && r == Reversed(d) + Zeros(n - k)
    {
      k, r := k - 1, r + [0];
    }
    r := Reversed(r);
  }

  /** Pop trailing zero limbs. */
  method StripTrailing(d: seq<int>) returns (r: seq<int>)
    ensures r == [] || r[|r| - 1] != 0
    ensures |r| <= |d| && d == r + Zeros(|d| - |r|) && r == d[..|r|]
  {
    r := d;
    while |r| > 0 && r[|r| - 1] == 0
      invariant |r| <= |d| && d == r + Zeros(|d| - |r|) && r == d[..|r|]
    {
      r := r[..|r| - 1];
    }
  }

  lemma StripKeepsValue(d: seq<int>, r: seq<int>, top: int)
    requires |r| <= |d| && d == r + Zeros(|d| - |r|)
    ensures LimbValue(d, top) == LimbValue(r, top)
  {
    LimbSplit(r, Zeros(|d| - |r|), top);
    LimbZeros(Zeros(|d| - |r|), top - |r|);
  }

  // ----- Decimal digits of the first limb ---------------------------------------------

  function Digits(x: nat): (n: nat)
    ensures n >= 1
  {
    if x < 10 then 1 else 1 + Digits(x / 10)
  }

  lemma {:induction false} DigitsBounds(x: nat)
    ensures x < Pow10(Digits(x)) && (x > 0 ==> Pow10(Digits(x) - 1) <= x)
  {
    if x >= 10 { DigitsBounds(x / 10); }
  }

  lemma {:induction false} Pow10Monotone(j: nat, k: nat)
    requires j <= k
    ensures 1 <= Pow10(j) <= Pow10(k) && (j < k ==> 10 * Pow10(j) <= Pow10(k))
    decreases k
  {
    if j < k { Pow10Monotone(j, k - 1); } else if k > 0 { Pow10Monotone(k - 1, k - 1); }
  }

  /** Digits is determined by the powers of ten around its argument. */
  lemma DigitsUnique(x: nat, n: nat)
    requires n >= 1 && x < Pow10(n) && (n > 1 ==> Pow10(n - 1) <= x)
    ensures Digits(x) == n
  {
    DigitsBounds(x);
    if Digits(x) < n { Pow10Monotone(Digits(x), n - 1); }
    if Digits(x) > n { Pow10Monotone(n, Digits(x) - 1); }
  }

  lemma LimbDigits(x: nat)
    requires x < LIMB_BASE
    ensures 1 <= Digits(x) <= LIMB_DIGITS
  {
    DigitsBounds(x);
    assert Pow10(7) == LIMB_BASE;
    if Digits(x) > 7 { Pow10Monotone(7, Digits(x) - 1); }
  }
}
