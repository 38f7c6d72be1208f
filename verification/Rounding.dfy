/** The digit arithmetic behind Decimal rounding, free of objects. */
module Rounding {
  import opened Basics
  import opened Limbs
  import opened DecimalValue

  // ----- A limb list as one integer ----------------------------------------------------

  /** The integer a limb list spells. */
  function Big(d: seq<int>): int {
    if d == [] then 0 else Big(d[..|d| - 1]) * LIMB_BASE + d[|d| - 1]
  }

  lemma {:induction false} BigValue(d: seq<int>, top: int)
    ensures LimbValue(d, top) == Units(Big(d), Weight(top - |d| + 1))
    ensures AreLimbs(d) ==> Big(d) >= 0
  {
    hide Weight, Units;
    var w := Weight(top - |d| + 1);
    UnitsAdd(0, 0, w);
    if d != [] {
      var front, last := d[..|d| - 1], d[|d| - 1..];
      BigValue(front, top);
      assert d == front + last && last[1..] == [];
      LimbSplit(front, last, top);
      WeightStep(top - |d| + 1);
      assert top - |front| + 1 == top - |d| + 1 + 1 && top - |front| == top - |d| + 1;
      UnitsNest(Big(front), LIMB_BASE, w);
      UnitsAdd(Big(front) * LIMB_BASE, d[|d| - 1], w);
    }
  }

  /** The unit 10^(7t + n) in terms of the limb weight. */
  lemma UnitOfLimb(t: int, n: nat)
    ensures Ten(7 * t + n) == Units(Pow10(n), Weight(t))
  {
    hide Units;
    TenAdd(7 * t, n);
  }

  lemma {:induction false} Pow10Add(j: nat, k: nat)
    ensures Pow10(j + k) == Pow10(j) * Pow10(k)
  {
    if j > 0 { Pow10Add(j - 1, k); }
  }

  /** c / 10^n truncated, and the n lowest digits of c. */
  function High(c: nat, n: nat): nat {
    Pow10Monotone(0, n);
    c / Pow10(n)
  }

  function Low(c: nat, n: nat): nat {
    Pow10Monotone(0, n);
    c % Pow10(n)
  }

  lemma HighLow(c: nat, n: nat)
    ensures c == High(c, n) * Pow10(n) + Low(c, n) && Low(c, n) < Pow10(n)
  {
    Pow10Monotone(0, n);
  }

  // ----- Splitting at the rounding digit ---------------------------------------------

  /** What is dropped from limb c below its n lowest digits, given the value of the limbs after it. */
  ghost function Dropped(c: nat, n: nat, rest: real, w: real): real {
    Units(Low(c, n), w) + rest
  }

  /** The rounding digit and the sticky test decide how the dropped part compares with half a unit. */
  lemma DigitDecides(c: nat, n: nat, rest: real, w: real)
    requires n >= 1 && w > 0.0 && 0.0 <= rest < w
    ensures var digit := High(c, n - 1) % 10;
            var sticky := Low(c, n - 1) != 0 || rest != 0.0;
            var part, u := Dropped(c, n, rest, w), Units(Pow10(n), w);
            && 0.0 <= part < u
            && (part == 0.0 <==> digit == 0 && !sticky)
            && (2.0 * part == u <==> digit == 5 && !sticky)
            && (2.0 * part > u <==> digit > 5 || (digit == 5 && sticky))
  {
    hide Units, High, Low, Pow10;
    LowSplit(c, n);
    var digit, low, p := High(c, n - 1) % 10, Low(c, n - 1), Pow10(n - 1);
    var small := Units(p, w);
    UnitsAdd(digit * p, low, w);
    UnitsNest(digit, p, w);
    UnitsNest(10, p, w);
    UnitsAdd(0, 0, w);
    UnitsOrder(0, low, w);
    UnitsOrder(low, p, w);
    CompareWithHalf(digit, Units(low, w) + rest, small);
  }

  lemma LowSplit(c: nat, n: nat)
    requires n >= 1
    ensures Low(c, n) == High(c, n - 1) % 10 * Pow10(n - 1) + Low(c, n - 1)
    ensures Pow10(n) == 10 * Pow10(n - 1) && Low(c, n - 1) < Pow10(n - 1)
  {
    Pow10Monotone(0, n - 1);
    SplitDigit(c, Pow10(n - 1));
  }

  lemma CompareWithHalf(digit: int, stick: real, small: real)
    requires 0 <= digit <= 9 && 0.0 <= stick < small
    ensures var part, u := Units(digit, small) + stick, Units(10, small);
            && 0.0 <= part < u
            && (part == 0.0 <==> digit == 0 && stick == 0.0)
            && (2.0 * part == u <==> digit == 5 && stick == 0.0)
            && (2.0 * part > u <==> digit > 5 || (digit == 5 && stick > 0.0))
  {
    hide Units;
    UnitsAdd(5, 5, small);
    UnitsAdd(9, 1, small);
    UnitsOrder(digit, 9, small);
    UnitsOrder(digit, 5, small);
    UnitsOrder(5, digit, small);
    UnitsOrder(0, digit, small);
    UnitsAdd(0, 0, small);
  }

  lemma SplitDigit(c: nat, p: nat)
    requires p > 0
    ensures c % (10 * p) == c / p % 10 * p + c % p
  {
    var q := c / p;
    var t, digit := q / 10, q % 10;
    MulOrder(digit, 9, p);
    MulOrder(0, digit, p);
    SplitSum(t, digit, p, q);
    DivModUnique(c, 10 * p, t, digit * p + c % p);
  }

  lemma SplitSum(t: int, digit: int, p: int, q: int)
    requires q == 10 * t + digit
    ensures q * p == t * (10 * p) + digit * p
  {
  }

  /** The limbs above limb i and the kept digits of limb i are a whole number of units. */
  ghost function Kept(a: seq<int>, i: nat, n: nat): int
    requires AreLimbs(a) && i < |a| && (i > 0 ==> n <= 7)
  {
    if i == 0 then High(a[0], n) else Big(a[..i]) * Pow10(7 - n) + High(a[i], n)
  }

  lemma SplitAtDigit(a: seq<int>, top: int, i: nat, n: nat)
    requires AreLimbs(a) && i < |a| && (i > 0 ==> n <= 7)
    ensures var u := Ten(7 * (top - i) + n);
            && LimbValue(a, top) == Units(Kept(a, i, n), u)
                                  + Dropped(a[i], n, LimbValue(a[i + 1..], top - i - 1), Weight(top - i))
            && LimbValue(a[..i], top) + Units(High(a[i], n), u) == Units(Kept(a, i, n), u)
            && Kept(a, i, n) >= 0
  {
    hide Weight, Units, LimbValue, Kept, Ten, High, Low, AreLimbs;
    SplitAtLimb(a, top, i);
    SplitLimb(a[i], top - i, n);
    KeptUnits(a, top, i, n);
  }

  /** A limb list is what stands before a limb, the limb, and what follows it. */
  lemma SplitAtLimb(a: seq<int>, top: int, i: nat)
    requires AreLimbs(a) && i < |a|
    ensures a[i] >= 0
    ensures LimbValue(a, top)
         == LimbValue(a[..i], top) + Units(a[i], Weight(top - i)) + LimbValue(a[i + 1..], top - i - 1)
  {
    hide Weight, Units, LimbValue;
    assert a == a[..i] + a[i..] && a[i..] == [a[i]] + a[i + 1..];
    LimbSplit(a[..i], a[i..], top);
    LimbSplit([a[i]], a[i + 1..], top - i);
    SingleLimb(a[i], top - i);
  }

  /** One limb is its high part in units of 10^n plus its low part. */
  lemma SplitLimb(x: nat, t: int, n: nat)
    ensures Units(x, Weight(t)) == Units(High(x, n), Ten(7 * t + n)) + Units(Low(x, n), Weight(t))
  {
    hide Weight, Units, Pow10, Ten, High, Low;
    UnitOfLimb(t, n);
    HighLow(x, n);
    UnitsNest(High(x, n), Pow10(n), Weight(t));
    UnitsAdd(High(x, n) * Pow10(n), Low(x, n), Weight(t));
  }

  lemma KeptUnits(a: seq<int>, top: int, i: nat, n: nat)
    requires AreLimbs(a) && i < |a| && (i > 0 ==> n <= 7)
    ensures var u := Ten(7 * (top - i) + n);
            LimbValue(a[..i], top) + Units(High(a[i], n), u) == Units(Kept(a, i, n), u)
    ensures Kept(a, i, n) >= 0
  {
    hide Weight, Units, Ten, Big, Kept, Pow10, High;
    var u := Ten(7 * (top - i) + n);
    KeptCases(a, i, n);
    if i == 0 {
      assert a[..i] == [];
    } else {
      BigValue(a[..i], top);
      assert top - i + 1 == top - |a[..i]| + 1;
      TenAdd(7 * (top - i) + n, 7 - n);
      WeightIsTen(top - i + 1);
      assert 7 * (top - i) + n + (7 - n) == 7 * (top - i + 1 - 1) + 7;
      UnitsNest(Big(a[..i]), Pow10(7 - n), u);
      UnitsAdd(Big(a[..i]) * Pow10(7 - n), High(a[i], n), u);
      KeptNonNegative(Big(a[..i]), Pow10(7 - n), High(a[i], n));
    }
  }

  lemma KeptNonNegative(x: nat, y: nat, z: nat)
    ensures x * y + z >= 0
  {
  }

  lemma WeightIsTen(t: int)
    ensures Weight(t) == Ten(7 * (t - 1) + 7)
  {
    assert 7 * t == 7 * (t - 1) + 7;
  }

  lemma KeptCases(a: seq<int>, i: nat, n: nat)
    requires AreLimbs(a) && i < |a| && (i > 0 ==> n <= 7)
    ensures i == 0 ==> Kept(a, i, n) == High(a[0], n)
    ensures i > 0 ==> Kept(a, i, n) == Big(a[..i]) * Pow10(7 - n) + High(a[i], n)
    ensures i > 0 ==> Big(a[..i]) == Big(a[..i - 1]) * LIMB_BASE + a[i - 1]
  {
    hide Pow10, High;
    if i > 0 { assert a[..i][..i - 1] == a[..i - 1]; }
  }

  /** Parity of the kept integer: that of the last kept digit. */
  lemma KeptParity(a: seq<int>, i: nat, n: nat)
    requires AreLimbs(a) && i < |a| && n >= 1 && (i > 0 ==> n <= 7)
    ensures Kept(a, i, n) % 2 == (if n < 7 || i == 0 then High(a[i], n) else a[i - 1]) % 10 % 2
  {
    hide Kept, Big, High;
    KeptCases(a, i, n);
    if i > 0 {
      if n < 7 {
        var y := Pow10(7 - n - 1);
        assert Pow10(7 - n) == 10 * y;
        hide Pow10;
        EvenProduct(Big(a[..i]), y);
        ParityOfSum(5 * Big(a[..i]) * y, High(a[i], n));
      } else {
        HighOfLimb(a[i]);
        ParityOfSum(Big(a[..i - 1]) * 5000000, a[i - 1]);
      }
    }
    ParityOfSum(0, High(a[i], n));
  }

  lemma HighOfLimb(x: nat)
    requires x < LIMB_BASE
    ensures High(x, 7) == 0 && Pow10(0) == 1
  {
    assert Pow10(7) == LIMB_BASE;
  }

  lemma EvenProduct(x: int, y: int)
    ensures x * (10 * y) == 2 * (5 * x * y)
  {
  }

  lemma ParityOfSum(x: int, z: nat)
    ensures (2 * x + z) % 2 == z % 2
    ensures z % 10 % 2 == z % 2
  {
  }

  // ----- Carrying a unit upwards -------------------------------------------------------

  /** Adding u <= x to x grows the digit count by at most one. */
  lemma DigitsGrow(x: nat, u: nat)
    requires 1 <= u <= x
    ensures Digits(x) <= Digits(x + u) <= Digits(x) + 1
  {
    hide Digits;
    var n := Digits(x);
    DigitsBounds(x);
    DigitsBounds(x + u);
    var m := Digits(x + u);
    assert Pow10(n + 1) == 10 * Pow10(n);
    if m > n + 1 { Pow10Monotone(n + 1, m - 1); }
    if m < n { Pow10Monotone(m, n - 1); }
  }

  /** Count decimal digits by repeated division. */
  method CountDigits(x: nat) returns (n: nat)
    ensures n == Digits(x)
  {
    n := 1;
    var y := x;
    while y >= 10
      invariant n >= 1 && y >= 0 && Digits(x) == n - 1 + Digits(y)
    {
      y, n := y / 10, n + 1;
    }
  }

  /** The carry reached the first limb: one more digit moves the exponent, and 10^7 becomes 1. */
  method GrowFirst(a: seq<int>, e: int, u: int) returns (r: seq<int>, f: int)
    requires AreLimbs(a) && |a| > 0 && a[0] > 0 && e % 7 + 1 == Digits(a[0])
    requires u >= 1 && a[0] % u == 0 && LIMB_BASE % u == 0
    requires a[0] + u == LIMB_BASE ==> forall k :: 0 < k < |a| ==> a[k] == 0
    ensures AreLimbs(r) && |r| == |a| && r[0] > 0 && f % 7 + 1 == Digits(r[0])
    ensures LimbValue(r, f / 7) == LimbValue(a, e / 7) + Units(u, Weight(e / 7))
  {
    hide Weight, Units, LimbValue, Digits;
    NextMultiple(a[0], u);
    LimbUpdate(a, 0, a[0] + u, e / 7);
    DigitsGrow(a[0], u);
    LimbDigits(a[0]);
    var before := CountDigits(a[0]);
    r, f := a[0 := a[0] + u], e;
    var after := CountDigits(r[0]);
    FullDigits();
    if before != after {
      f := f + 1;
      if r[0] == LIMB_BASE {
        FullLimb(r, e / 7);
        r := r[0 := 1];
        return;
      }
    }
    LimbDigits(r[0]);
  }

  lemma FullDigits()
    ensures Digits(LIMB_BASE) == 8 && Digits(1) == 1
  {
    assert LIMB_BASE < Pow10(8) && Pow10(7) <= LIMB_BASE;
    DigitsUnique(LIMB_BASE, 8);
  }

  /** Add u to the last limb; a limb that reaches 10^7 becomes 0 and carries, and the first limb moves the exponent. */
  method CarryUp(a: seq<int>, e: int, u: int) returns (r: seq<int>, f: int)
    requires AreLimbs(a) && |a| > 0 && a[0] > 0 && e % 7 + 1 == Digits(a[0])
    requires u >= 1 && a[|a| - 1] % u == 0 && LIMB_BASE % u == 0
    ensures AreLimbs(r) && |r| == |a| && r[0] > 0 && f % 7 + 1 == Digits(r[0])
    ensures LimbValue(r, f / 7) == LimbValue(a, e / 7) + Units(u, Weight(e / 7 - (|a| - 1)))
  {
    hide Weight, Units, LimbValue, Digits;
    r, f := a, e;
    var i, v := |a| - 1, u;
    ghost var top := e / 7;
    while i > 0
      invariant 0 <= i < |a| == |r| && AreLimbs(r) && r[0] == a[0]
      invariant v >= 1 && r[i] % v == 0 && LIMB_BASE % v == 0
      invariant forall k :: i < k < |a| ==> r[k] == 0
      invariant LimbValue(r, top) + Units(v, Weight(top - i)) == LimbValue(a, top) + Units(u, Weight(top - (|a| - 1)))
    {
      NextMultiple(r[i], v);
      if r[i] + v != LIMB_BASE {
        LimbUpdate(r, i, r[i] + v, top);
        r := r[i := r[i] + v];
        return;
      }
      CarryOut(r, i, v, top);
      r, i, v := r[i := 0], i - 1, 1;
    }
    r, f := GrowFirst(r, e, v);
  }

  /** A full limb is one unit of the limb above. */
  lemma CarryOut(r: seq<int>, i: nat, v: int, top: int)
    requires i < |r| && r[i] + v == LIMB_BASE
    ensures LimbValue(r[i := 0], top) + Units(1, Weight(top - (i - 1))) == LimbValue(r, top) + Units(v, Weight(top - i))
  {
    hide Weight, Units, LimbValue;
    LimbUpdate(r, i, 0, top);
    assert top - (i - 1) == top - i + 1;
    WeightStep(top - i);
    UnitsAdd(0, 1, Weight(top - i + 1));
    UnitsAdd(0, r[i], Weight(top - i));
    UnitsAdd(r[i], v, Weight(top - i));
  }

  lemma NextMultiple(x: int, u: int)
    requires 0 <= x < LIMB_BASE && u >= 1 && x % u == 0 && LIMB_BASE % u == 0
    ensures x + u <= LIMB_BASE && (x > 0 ==> u <= x)
  {
    var q, m := x / u, LIMB_BASE / u;
    MulOrder(m, q, u);
    MulOrder(q + 1, m, u);
    MulOrder(q, 0, u);
    MulOrder(1, q, u);
    assert (q + 1) * u == q * u + u;
  }

  /** A first limb that reached 10^7 is a 1 one limb further up. */
  lemma FullLimb(r: seq<int>, top: int)
    requires |r| > 0 && r[0] == LIMB_BASE && forall k :: 0 < k < |r| ==> r[k] == 0
    ensures LimbValue(r, top) == LimbValue(r[0 := 1], top + 1)
  {
    hide Weight, Units;
    WeightStep(top);
    UnitsAdd(0, 1, Weight(top + 1));
    assert r[0 := 1][1..] == r[1..];
    LimbZeros(r[1..], top - 1);
    LimbZeros(r[1..], top);
  }

  // ----- The rounding step on limb lists -------------------------------------------------

  /** A number with at most n digits has no part above them. */
  lemma AllLow(c: nat, n: nat)
    requires Digits(c) <= n
    ensures High(c, n) == 0 && Low(c, n) == c
  {
    hide Digits, Pow10;
    DigitsBounds(c);
    Pow10Monotone(Digits(c), n);
    Pow10Monotone(0, n);
    DivModUnique(c, Pow10(n), 0, c);
  }

  /** A number with more than n digits keeps its leading digit when the n lowest are zeroed. */
  lemma KeepLeading(c: nat, n: nat)
    requires c > 0 && Digits(c) > n
    ensures 0 < High(c, n) < Pow10(Digits(c) - n)
    ensures High(c, n) * Pow10(n) <= c && Digits(High(c, n) * Pow10(n)) == Digits(c)
  {
    hide Digits, High, Low, Pow10;
    var r := Digits(c);
    DigitsBounds(c);
    HighLow(c, n);
    Pow10Add(r - n, n);
    Pow10Add(r - 1 - n, n);
    Pow10Monotone(0, r - 1 - n);
    QuotientBetween(High(c, n), Low(c, n), Pow10(n), Pow10(r - 1 - n), Pow10(r - n));
    DigitsUnique(High(c, n) * Pow10(n), r);
  }

  lemma QuotientBetween(h: nat, low: nat, p: nat, x: nat, y: nat)
    requires low < p && x * p <= h * p + low < y * p
    ensures x <= h < y && x * p <= h * p <= h * p + low
  {
    MulOrder(y, h, p);
    MulOrder(h + 1, x, p);
    assert (h + 1) * p == h * p + p;
    MulOrder(x, h, p);
  }

  lemma UnitDividesLimb(n: nat, h: nat)
    requires n <= 7
    ensures Pow10(n) >= 1 && LIMB_BASE % Pow10(n) == 0 && h * Pow10(n) % Pow10(n) == 0
  {
    Pow10Monotone(0, n);
    Pow10Add(7 - n, n);
    assert Pow10(7) == LIMB_BASE;
    MultipleMod(Pow10(7 - n), Pow10(n));
    MultipleMod(h, Pow10(n));
  }

  lemma MultipleMod(h: nat, p: nat)
    requires p >= 1
    ensures h * p % p == 0
  {
    DivModUnique(h * p, p, h, 0);
  }

  /** Truncated at the rounding position, the list is worth the kept units. */
  lemma TruncatedValue(a: seq<int>, top: int, i: nat, n: nat)
    requires AreLimbs(a) && i < |a| && 1 <= n <= 7
    ensures var u := Ten(7 * (top - i) + n);
            && LimbValue(a[..i] + [High(a[i], n) * Pow10(n)], top) == Units(Kept(a, i, n), u)
            && u == Units(Pow10(n), Weight(top - i))
            && (n == 7 ==> LimbValue(a[..i], top) == Units(Kept(a, i, n), u) && u == Weight(top - i + 1))
  {
    hide Weight, Units, LimbValue, Kept, Ten, High, Low;
    var h := High(a[i], n);
    KeptUnits(a, top, i, n);
    UnitOfLimb(top - i, n);
    LimbSplit(a[..i], [h * Pow10(n)], top);
    SingleLimb(h * Pow10(n), top - i);
    UnitsNest(h, Pow10(n), Weight(top - i));
    if n == 7 {
      HighOfLimb(a[i]);
      UnitsAdd(0, 0, Ten(7 * (top - i) + n));
      WeightIsTen(top - i + 1);
    }
  }

  /** The test of the code, on the rounding digit, the sticky flag and the parity of the last kept digit. */
  predicate RoundsUp(mode: Mode, negative: bool, digit: int, sticky: bool, odd: bool) {
    if mode < 4 then
      (digit != 0 || sticky) && (mode == 0 || mode == if negative then 3 else 2)
    else
      digit > 5 || (digit == 5 && (mode == 4 || sticky || (mode == 6 && odd) || mode == if negative then 8 else 7))
  }

  /** The test agrees with the reference on the value of the dropped part. */
  lemma RoundsUpIsRoundsAway(a: seq<int>, top: int, i: nat, n: nat, mode: Mode, negative: bool)
    requires AreLimbs(a) && i < |a| && n >= 1 && (i > 0 ==> n <= 7)
    requires i + 1 < |a| ==> a[|a| - 1] != 0
    ensures var part := Dropped(a[i], n, LimbValue(a[i + 1..], top - i - 1), Weight(top - i));
            var digit := High(a[i], n - 1) % 10;
            var sticky := i + 1 < |a| || Low(a[i], n - 1) != 0;
            var last := if n < 7 || i == 0 then High(a[i], n) else a[i - 1];
            && RoundsUp(mode, negative, digit, sticky, last % 10 % 2 == 1)
               == RoundsAway(mode, negative, Kept(a, i, n), part, Ten(7 * (top - i) + n))
            && 0.0 <= part < Ten(7 * (top - i) + n)
  {
    hide Weight, Units, LimbValue, Kept, Ten, High, Low, Pow10, Dropped;
    var rest := LimbValue(a[i + 1..], top - i - 1);
    LimbBound(a[i + 1..], top - i - 1);
    WeightStep(top - i);
    assert top - i - 1 + 1 == top - i;
    if i + 1 < |a| {
      assert a[i + 1..][|a| - i - 2] == a[|a| - 1];
      LimbPositive(a[i + 1..], |a| - i - 2, top - i - 1);
    } else {
      LimbZeros(a[i + 1..], top - i - 1);
    }
    DigitDecides(a[i], n, rest, Weight(top - i));
    UnitOfLimb(top - i, n);
    KeptParity(a, i, n);
  }
}
