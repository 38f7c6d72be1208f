/** Arbitrary-precision decimals: the arithmetic methods that update limb lists and exponents in place. */
module Decimals {
  import opened Limbs
  import opened DecimalValue
  import opened LimbLoops
  import opened Rounding
  import opened Alignment

  /** JavaScript's remainder, which takes the sign of the dividend. */
  function Remainder(x: int, y: int): int
    requires y > 0
  {
    if x >= 0 then x % y else -(-x % y)
  }

  class Decimal {
    var s: int
    var e: int
    var d: seq<int>

    function Model(): Num
      reads this
    {
      Num(s, e, d)
    }

    constructor (sign: int, exponent: int, limbs: seq<int>)
      ensures Model() == Num(sign, exponent, limbs)
    {
      s, e, d := sign, exponent, limbs;
    }

    constructor Copy(x: Decimal)
      ensures Model() == x.Model()
    {
      s, e, d := x.s, x.e, x.d;
    }

    // ----- Rounding ----------------------------------------------------------------

    /** Zero rounded left of the units place: kept, except that modes pointing away from zero invent a unit. */
    static ghost function RoundedZero(x: Num, sd: int, mode: Mode): real {
      if sd < 0 && (mode == 0 || mode == if x.s < 0 then 3 else 2) then Signed(x.s < 0, Ten(1 - sd)) else 0.0
    }

    /** Round in place to sd significant digits (or, for sd < 1, to a place left of the leading digit). */
    method Round(sd: int, mode: Mode)
      requires Canonical(Model())
      modifies this
      ensures Canonical(Model()) && s == old(s)
      ensures !IsZero(old(Model())) ==> Value(Model()) == RoundAt(Value(old(Model())), old(e) - sd + 1, mode)
      ensures IsZero(old(Model())) ==> Value(Model()) == RoundedZero(old(Model()), sd, mode)
    {
      hide Ten, Weight, Units, LimbValue, High, Low, Digits, Pow10, RoundAt, RoundsAway, Kept, Dropped;
      var x := Model();
      var present, i, c, r, kept := FindDigit(d, sd);
      if !present {
        AlreadyShort(x, sd, mode);
        return;
      }
      var up := DecideDigit(x, sd, mode, i, c, r, kept);
      if sd < 1 || d[0] == 0 {
        if up {
          var q := sd - (e + 1);
          d := [Pow10((7 - Remainder(q, 7)) % 7)];
          e := -q;
          PowerOfTen(e, d, q);
        } else {
          d := [0];
          e := 0;
        }
        OneUnitOrZero(x, Model(), sd, mode, up);
        return;
      }
      d, e := ZeroTail(x, sd, i, c, r, kept, up);
      ValueOfZero(Model());
      RoundingOf(x, sd, mode, i, 7 - kept);
    }

    // ----- Comparison ---------------------------------------------------------------

    /** Three-way comparison; the source writes (x > y) ^ (sign < 0) ? 1 : -1. */
    method Compare(b: Decimal) returns (order: int)
      requires Canonical(Model()) && Canonical(b.Model())
      ensures var x, y := Value(Model()), Value(b.Model());
        order == if x < y then -1 else if x > y then 1 else 0
    {
      hide Ten, Weight, Units, LimbValue, Digits;
      ValueOfZero(Model());
      ValueOfZero(b.Model());
      if d[0] == 0 || b.d[0] == 0 {
        return if d[0] != 0 then s else if b.d[0] != 0 then -b.s else 0;
      }
      if s != b.s {
        return s;
      }
      if e != b.e {
        LeadingDigit(Model());
        LeadingDigit(b.Model());
        if e < b.e { TenMonotone(e + 1, b.e); } else { TenMonotone(b.e + 1, e); }
        return if (e > b.e) != (s < 0) then 1 else -1;
      }
      var k := FirstDifference(d, b.d);
      if k < |d| && k < |b.d| {
        if d[k] < b.d[k] { WordOrder(d, b.d, k, e / 7); } else { WordOrder(b.d, d, k, e / 7); }
        return if (d[k] > b.d[k]) != (s < 0) then 1 else -1;
      }
      if |d| == |b.d| {
        assert d == d[..k] == b.d[..k] == b.d;
        return 0;
      }
      if |d| < |b.d| { WordOrder(d, b.d, k, e / 7); } else { WordOrder(b.d, d, k, e / 7); }
      return if (|d| > |b.d|) != (s < 0) then 1 else -1;
    }

    // ----- Addition and subtraction ----------------------------------------------------

    /** Final rounding, if results are rounded at all. */
    method Finish(cfg: Settings)
      requires Canonical(Model()) && cfg.precision >= 1
      modifies this
      ensures Canonical(Model())
      ensures !cfg.roundResults ==> Model() == old(Model())
      ensures cfg.roundResults && IsZero(old(Model())) ==> Value(Model()) == 0.0
      ensures cfg.roundResults && !IsZero(old(Model())) ==>
        Value(Model()) == RoundAt(Value(old(Model())), old(e) - cfg.precision + 1, cfg.rounding)
    {
      if cfg.roundResults {
        Round(cfg.precision, cfg.rounding);
      }
    }

    /** Finish a sum whose value before rounding is that of the operands that were really added. */
    method FinishSum(ghost a: Num, ghost b: Num, cfg: Settings)
      requires Canonical(Model()) && Canonical(a) && Canonical(b) && cfg.precision >= 1
      requires var (x, y) := Operands(a, b, cfg.precision); Value(Model()) == Value(x) + Value(y)
      modifies this
      ensures Canonical(Model()) && IsSum(a, b, cfg, Model())
    {
      hide Ten, Weight, Units, LimbValue, Digits, Operands, RoundAt;
      ExactIffWithinCutoff(a, b, cfg.precision);
      RoundedSum(a, b, cfg.precision, cfg.rounding, Model());
      ValueOfZero(Model());
      Finish(cfg);
    }

    /** The sum; opposite signs are left to Minus. */
    method Plus(b: Decimal, cfg: Settings) returns (r: Decimal)
      requires Canonical(Model()) && Canonical(b.Model()) && cfg.precision >= 1
      ensures fresh(r) && Canonical(r.Model()) && IsSum(Model(), b.Model(), cfg, r.Model())
      decreases if s != b.s then 1 else 0
    {
      hide Ten, Weight, Units, LimbValue, Digits, Operands, IsSum, Magnitude;
      ValueOfZero(Model());
      ValueOfZero(b.Model());
      if IsZero(Model()) || IsZero(b.Model()) { ZeroOperand(Model(), b.Model(), cfg.precision); }
      r := new Decimal.Copy(b);
      if s != r.s {
        r.s := -r.s;
        var difference := Minus(r, cfg);
        return difference;
      }
      if d[0] == 0 || r.d[0] == 0 {
        if r.d[0] == 0 { r := new Decimal.Copy(this); }
        r.FinishSum(Model(), b.Model(), cfg);
        return;
      }
      var limbs, top := AddMagnitudes(Model(), r.Model(), cfg.precision);
      r.d := limbs;
      r.e := ExponentOf(limbs, top);
      Assembled(r.s, limbs, r.e, top);
      r.FinishSum(Model(), b.Model(), cfg);
    }

    /** The difference; opposite signs are left to Plus. */
    method Minus(b: Decimal, cfg: Settings) returns (r: Decimal)
      requires Canonical(Model()) && Canonical(b.Model()) && cfg.precision >= 1
      ensures fresh(r) && Canonical(r.Model()) && IsSum(Model(), Negated(b.Model()), cfg, r.Model())
      decreases if s == b.s then 0 else 1
    {
      hide Ten, Weight, Units, LimbValue, Digits, Operands, IsSum, Magnitude;
      ghost var y := Negated(b.Model());
      ValueOfZero(Model());
      ValueOfZero(b.Model());
      if IsZero(Model()) || IsZero(y) { ZeroOperand(Model(), y, cfg.precision); }
      if s != b.s {
        r := new Decimal.Copy(b);
        r.s := -r.s;
        var sum := Plus(r, cfg);
        return sum;
      }
      if d[0] == 0 || b.d[0] == 0 {
        if b.d[0] != 0 {
          r := new Decimal.Copy(b);
          r.s := -r.s;
        } else if d[0] != 0 {
          r := new Decimal.Copy(this);
        } else {
          r := ZeroDifference(y, cfg);
          return;
        }
        r.FinishSum(Model(), y, cfg);
        return;
      }
      r := SubtractSameSign(b, cfg);
    }

    /** The zero of an empty difference: negative only when rounding down. */
    method ZeroDifference(ghost y: Num, cfg: Settings) returns (r: Decimal)
      requires Canonical(Model()) && Canonical(y) && cfg.precision >= 1
      requires var (u, v) := Operands(Model(), y, cfg.precision); Value(u) + Value(v) == 0.0
      ensures fresh(r) && Canonical(r.Model()) && IsSum(Model(), y, cfg, r.Model())
      ensures r.s == if cfg.rounding == 3 then -1 else 1
    {
      hide Ten, Weight, Units, LimbValue, Operands, IsSum, Magnitude;
      r := new Decimal(if cfg.rounding == 3 then -1 else 1, 0, [0]);
      UnroundedSum(Model(), y, cfg, r.Model());
    }

    /** The difference of two nonzero numbers of the same sign. */
    method SubtractSameSign(b: Decimal, cfg: Settings) returns (r: Decimal)
      requires Canonical(Model()) && Canonical(b.Model()) && cfg.precision >= 1
      requires s == b.s && !IsZero(Model()) && !IsZero(b.Model())
      ensures fresh(r) && Canonical(r.Model()) && IsSum(Model(), Negated(b.Model()), cfg, r.Model())
    {
      hide Ten, Weight, Units, LimbValue, Digits, Operands, IsSum, Magnitude;
      ghost var y := Negated(b.Model());
      var limbs, top, swapped := SubtractMagnitudes(Model(), Negated(b.Model()), cfg.precision);
      if |limbs| == 0 {
        EmptyDifference(Model(), y, cfg.precision, top);
        r := ZeroDifference(y, cfg);
        return;
      }
      var e := ExponentOf(limbs, top);
      r := new Decimal(if swapped then -b.s else b.s, e, limbs);
      Assembled(r.s, limbs, r.e, top);
      OppositeSigns(Model(), y, cfg.precision, r.Model(), swapped);
      r.FinishSum(Model(), y, cfg);
    }

    // ----- Multiplication ---------------------------------------------------------------

    /** The product: exact before rounding, for all finite operands. */
    method Times(b: Decimal, cfg: Settings) returns (r: Decimal)
      requires Canonical(Model()) && Canonical(b.Model()) && cfg.precision >= 1
      ensures fresh(r) && Canonical(r.Model())
      ensures !cfg.roundResults ==> Value(r.Model()) == Product(Value(Model()), Value(b.Model()))
      ensures cfg.roundResults ==>
        CorrectlyRounded(Product(Value(Model()), Value(b.Model())), cfg.precision, cfg.rounding, Value(r.Model()))
    {
      hide Ten, Weight, Units, LimbValue, Digits, RoundAt, Magnitude, Product;
      ValueOfZero(Model());
      ValueOfZero(b.Model());
      SignedProduct(Model(), b.Model());
      r := new Decimal.Copy(b);
      r.s := r.s * s;
      if d[0] == 0 || r.d[0] == 0 {
        r := new Decimal(r.s, 0, [0]);
        ValueOfZero(r.Model());
        return;
      }
      var limbs, top := MultiplyMagnitudes(Model(), b.Model());
      r.d := limbs;
      r.e := ExponentOf(limbs, top);
      Assembled(r.s, limbs, r.e, top);
      ghost var exact := Product(Value(Model()), Value(b.Model()));
      assert Value(r.Model()) == exact;
      ValueOfZero(r.Model());
      LeadingDigit(r.Model());
      r.Finish(cfg);
    }
  }

  /** The sign of a product, and its magnitude. */
  lemma SignedProduct(a: Num, b: Num)
    requires Canonical(a) && Canonical(b)
    ensures Product(Value(a), Value(b)) == Signed(a.s * b.s < 0, Product(Magnitude(a), Magnitude(b)))
    ensures a.s * b.s == 1 || a.s * b.s == -1
    ensures IsZero(a) || IsZero(b) ==> Product(Value(a), Value(b)) == 0.0
  {
    hide Units, Weight, LimbValue, Digits, Product;
    ValueOfZero(a);
    ValueOfZero(b);
    ProductSigns(Magnitude(a), Magnitude(b));
    ProductAdd(0.0, 0.0, Value(a));
    ProductAdd(0.0, 0.0, Value(b));
  }

  lemma ProductSigns(x: real, y: real)
    ensures Product(-x, y) == -Product(x, y) == Product(x, -y)
    ensures Product(-x, -y) == Product(x, y)
  {
  }

  /** The schoolbook rows, without trailing zero limbs, and without the first limb if no carry reached it. */
  method MultiplyMagnitudes(a: Num, b: Num) returns (limbs: seq<int>, top: int)
    requires Canonical(a) && Canonical(b) && !IsZero(a) && !IsZero(b)
    ensures AreLimbs(limbs) && |limbs| > 0 && limbs[0] > 0 && limbs[|limbs| - 1] != 0
    ensures LimbValue(limbs, top) == Product(Magnitude(a), Magnitude(b))
  {
    hide Ten, Weight, Units, LimbValue, Digits;
    top := Top(a) + Top(b);
    var d, g := a.d, b.d;
    ghost var td, tg := Top(a), Top(b);
    if |d| < |g| {
      d, g, td, tg := g, d, tg, td;
    }
    var s, carry := MultiplyLimbs(d, g, top + 1);
    RowsAreProduct(d, g, 0, td, tg);
    assert g[0..] == g;
    ProductAtLeast(a, b);
    limbs := StripTrailing(s);
    StripKeepsValue(s, limbs, top + 1);
    UnitsAdd(0, 0, Weight(top + 1));
    WeightStep(top);
    if |limbs| == 0 { LimbZeros(limbs, top + 1); }
    assert limbs[0] == carry;
    if carry != 0 {
      top := top + 1;
    } else {
      LimbSplit([0], limbs[1..], top + 1);
      assert limbs == [0] + limbs[1..];
      LimbZeros([0], top + 1);
      limbs := limbs[1..];
      if |limbs| == 0 { LimbZeros(limbs, top); }
      FirstLimb(limbs, top);
    }
  }

  /** Leading limbs are at least one, so the product is at least one unit of the sum of the limb exponents. */
  lemma ProductAtLeast(a: Num, b: Num)
    requires Canonical(a) && Canonical(b) && !IsZero(a) && !IsZero(b)
    ensures Product(Magnitude(a), Magnitude(b)) >= Weight(Top(a) + Top(b)) > 0.0
    ensures Product(Magnitude(a), Magnitude(b)) == Product(Magnitude(b), Magnitude(a))
  {
    hide Ten, Weight, Units, LimbValue, Digits;
    ValueOfZero(a);
    ValueOfZero(b);
    FirstLimb(a.d, Top(a));
    FirstLimb(b.d, Top(b));
    WeightStep(Top(a));
    WeightStep(Top(b));
    WeightStep(Top(a) + Top(b));
    WeightProduct(Top(a), Top(b));
    ProductOrder(Weight(Top(a)), Magnitude(a), Weight(Top(b)), Magnitude(b));
  }

  lemma ProductOrder(u: real, x: real, w: real, y: real)
    requires 0.0 < u <= x && 0.0 < w <= y
    ensures Product(u, w) <= Product(x, y) == Product(y, x)
  {
    assert (x - u) * y >= 0.0;
    assert u * (y - w) >= 0.0;
  }

  function Negated(x: Num): Num {
    x.(s := -x.s)
  }

  lemma ZeroOperand(a: Num, b: Num, precision: nat)
    requires Canonical(a) && Canonical(b) && (IsZero(a) || IsZero(b))
    ensures Operands(a, b, precision) == (a, b)
    ensures IsZero(a) ==> Value(a) == 0.0
    ensures IsZero(b) ==> Value(b) == 0.0
  {
    hide Units, Weight, LimbValue, Digits;
    ValueOfZero(a);
    ValueOfZero(b);
  }

  /** With opposite signs the sum is the difference of the magnitudes, signed by the larger. */
  lemma OppositeSigns(a: Num, b: Num, precision: nat, r: Num, swapped: bool)
    requires Canonical(a) && Canonical(b) && a.s == -b.s && r.s == if swapped then b.s else a.s
    requires var (x, y) := Operands(a, b, precision);
             && x.s == a.s && y.s == b.s
             && Magnitude(r) == if swapped then Magnitude(y) - Magnitude(x) else Magnitude(x) - Magnitude(y)
    ensures var (x, y) := Operands(a, b, precision); Value(r) == Value(x) + Value(y)
  {
  }

  lemma EmptyDifference(a: Num, b: Num, precision: nat, top: int)
    requires Canonical(a) && Canonical(b) && a.s == -b.s
    requires var (x, y) := Operands(a, b, precision);
             && x.s == a.s && y.s == b.s
             && (LimbValue([], top) == Magnitude(y) - Magnitude(x) || LimbValue([], top) == Magnitude(x) - Magnitude(y))
    ensures var (x, y) := Operands(a, b, precision); Value(x) + Value(y) == 0.0
  {
  }

  /** A zero result is returned as it is. */
  lemma UnroundedSum(a: Num, b: Num, cfg: Settings, r: Num)
    requires Canonical(a) && Canonical(b) && Canonical(r) && IsZero(r) && cfg.precision >= 1
    requires var (x, y) := Operands(a, b, cfg.precision); Value(x) + Value(y) == 0.0
    ensures IsSum(a, b, cfg, r)
  {
    hide Ten, Weight, Units, LimbValue, Digits, Operands;
    ValueOfZero(r);
    ExactIffWithinCutoff(a, b, cfg.precision);
    RoundedSum(a, b, cfg.precision, cfg.rounding, r);
  }

  /** Align, add with carries, put the last carry in front, strip trailing zero limbs. */
  method AddMagnitudes(a: Num, b: Num, precision: nat) returns (limbs: seq<int>, top: int)
    requires Canonical(a) && Canonical(b) && !IsZero(a) && !IsZero(b)
    ensures AreLimbs(limbs) && |limbs| > 0 && limbs[0] > 0 && limbs[|limbs| - 1] != 0
    ensures var (x, y) := Operands(a, b, precision);
            LimbValue(limbs, top) == Magnitude(x) + Magnitude(y) && x.s == a.s && y.s == b.s
  {
    hide Ten, Weight, Units, LimbValue, Digits, Operands;
    var f, c, shift;
    f, c, top, shift := Align(a, b, precision);
    ghost var total := LimbValue(f, top) + LimbValue(c, top);
    assert total >= Weight(top) by { FirstLimb(f, top); FirstLimb(c, top); LimbBound(f, top); LimbBound(c, top); }
    if |f| < |c| {
      f, c := c, f;
    }
    var carry;
    f, carry := AddLimbs(f, c, top);
    UnitsAdd(0, 1, Weight(top + 1));
    if carry != 0 {
      LimbSplit([carry], f, top + 1);
      SingleLimb(carry, top + 1);
      f, top := [carry] + f, top + 1;
    } else {
      FirstLimb(f, top);
    }
    limbs := StripTrailing(f);
    StripKeepsValue(f, limbs, top);
    assert f[0] == (limbs + Zeros(|f| - |limbs|))[0];
  }

  /** Align, swap if the first is smaller, subtract with borrows, strip zero limbs at both ends. */
  method SubtractMagnitudes(a: Num, b: Num, precision: nat) returns (limbs: seq<int>, top: int, swapped: bool)
    requires Canonical(a) && Canonical(b) && !IsZero(a) && !IsZero(b)
    ensures AreLimbs(limbs) && (|limbs| > 0 ==> limbs[0] > 0 && limbs[|limbs| - 1] != 0)
    ensures var (x, y) := Operands(a, b, precision);
            LimbValue(limbs, top) == (if swapped then Magnitude(y) - Magnitude(x) else Magnitude(x) - Magnitude(y))
            && x.s == a.s && y.s == b.s
  {
    hide Ten, Weight, Units, LimbValue, Digits, Operands;
    var f, d, shift;
    f, d, top, shift := Align(a, b, precision);
    if shift > 0 {
      swapped := Top(a) < Top(b);
    } else {
      swapped := MagnitudeLess(f, d, top);
    }
    if swapped {
      f, d := d, f;
    }
    assert LimbValue(f, top) >= LimbValue(d, top) by {
      if shift > 0 { FirstLimb(f, top); FirstLimb(d, top); }
    }
    if |f| < |d| {
      LimbSplit(f, Zeros(|d| - |f|), top);
      LimbZeros(Zeros(|d| - |f|), top - |f|);
      f := f + Zeros(|d| - |f|);
    }
    f := SubtractLimbs(f, d, shift, top);
    var stripped := StripTrailing(f);
    StripKeepsValue(f, stripped, top);
    limbs, top := StripLeading(stripped, top);
  }

  /** Whether x < y, decided by the first differing limb, then by length. */
  method MagnitudeLess(x: seq<int>, y: seq<int>, ghost top: int) returns (less: bool)
    requires AreLimbs(x) && AreLimbs(y) && |x| > 0 && |y| > 0 && x[|x| - 1] != 0 && y[|y| - 1] != 0
    ensures less ==> LimbValue(x, top) < LimbValue(y, top)
    ensures !less ==> LimbValue(x, top) >= LimbValue(y, top)
  {
    hide LimbValue;
    less := |x| < |y|;
    var k := FirstDifference(x, y);
    if k < |x| && k < |y| {
      less := x[k] < y[k];
      if less { WordOrder(x, y, k, top); } else { WordOrder(y, x, k, top); }
    } else if |x| < |y| {
      WordOrder(x, y, k, top);
    } else if |x| > |y| {
      WordOrder(y, x, k, top);
    } else {
      assert x == x[..k] == y[..k] == y;
    }
  }

  /** Locate the limb i, its value c with r digits, and how many of its seven digits are kept. */
  method FindDigit(d: seq<int>, sd: int) returns (present: bool, i: nat, c: nat, r: nat, kept: int)
    requires |d| > 0 && AreLimbs(d)
    ensures !present ==> sd >= Digits(d[0]) && CeilDiv(sd - Digits(d[0]) + 1, 7) >= |d|
    ensures present ==> i < |d| && c == d[i] && r == Digits(c) && kept <= 6 && (i > 0 ==> kept >= 0)
    ensures present ==> sd == Digits(d[0]) + 7 * (i - 1) + kept
  {
    hide Digits;
    LimbDigits(d[0]);
    i, c := 0, d[0];
    r := CountDigits(c);
    kept := sd - r;
    if kept < 0 {
      return true, i, c, r, kept + 7;
    }
    i := CeilDiv(kept + 1, 7);
    if i >= |d| {
      return false, i, c, r, kept;
    }
    c := d[i];
    r := CountDigits(c);
    return true, i, c, r, kept % 7;
  }

  /** Round up or not: the digit after the kept ones, whether anything follows it, and the last kept digit. */
  method DecideDigit(x: Num, sd: int, mode: Mode, i: nat, c: nat, r: nat, kept: int) returns (up: bool)
    requires Canonical(x) && i < |x.d| && c == x.d[i] && r == Digits(c) && kept <= 6 && (i > 0 ==> kept >= 0)
    requires sd == Digits(x.d[0]) + 7 * (i - 1) + kept
    ensures !IsZero(x) ==> var q := 7 * (Top(x) - i) + (7 - kept);
      up == RoundsAway(mode, x.s < 0, Kept(x.d, i, 7 - kept),
                       Dropped(c, 7 - kept, LimbValue(x.d[i + 1..], Top(x) - i - 1), Weight(Top(x) - i)), Ten(q))
    ensures IsZero(x) ==> (up <==> sd < 0 && (mode == 0 || mode == if x.s < 0 then 3 else 2))
  {
    hide Ten, Weight, Units, LimbValue, High, Low, Digits, Pow10, RoundsAway, Kept, Dropped;
    var d, o := x.d, kept - 7 + r;
    ghost var n := 7 - kept;
    ZeroParts(n - 1);
    OneDigit();
    if r <= n - 1 { AllLow(c, n - 1); }
    if r <= n { AllLow(c, n); }
    var digit := if o < 0 then 0 else High(c, r - o - 1) % 10;
    var sticky := sd < 0 || i + 1 < |d| || (if o < 0 then c != 0 else Low(c, r - o - 1) != 0);
    var last := if kept > 0 then if o > 0 then High(c, r - o) else 0 else if i > 0 then d[i - 1] else 0;
    up := RoundsUp(mode, x.s < 0, digit, sticky, last % 10 % 2 == 1);
    if d[0] != 0 { RoundsUpIsRoundsAway(d, Top(x), i, n, mode, x.s < 0); }
  }

  lemma OneDigit()
    ensures Digits(0) == 1
  {
  }

  /** The kept digits, one unit more if rounding up, without trailing zero limbs. */
  method ZeroTail(x: Num, sd: int, i: nat, c: nat, r: nat, kept: int, up: bool) returns (d: seq<int>, e: int)
    requires Canonical(x) && !IsZero(x) && sd >= 1
    requires i < |x.d| && c == x.d[i] && r == Digits(c) && kept <= 6 && (i > 0 ==> kept >= 0)
    requires sd == Digits(x.d[0]) + 7 * (i - 1) + kept
    ensures Canonical(Num(x.s, e, d)) && !IsZero(Num(x.s, e, d))
    ensures LimbValue(d, e / 7)
         == Units(if up then Kept(x.d, i, 7 - kept) + 1 else Kept(x.d, i, 7 - kept), Ten(7 * (Top(x) - i) + (7 - kept)))
  {
    hide Ten, Weight, Units, LimbValue, High, Low, Digits, Pow10, Kept;
    var u;
    d, u := Truncate(x, i, c, r, kept);
    e := x.e;
    CanonicalExponent(x);
    if up {
      UnitsAdd(Kept(x.d, i, 7 - kept), 1, Ten(7 * (Top(x) - i) + (7 - kept)));
      d, e := CarryUp(d, e, u);
    }
    ghost var full := d;
    d := StripTrailing(d);
    StripKeepsValue(full, d, e / 7);
    assert full[0] == (d + Zeros(|full| - |d|))[0];
    assert AreLimbs(d) && d[0] == full[0];
  }

  /** Zero the dropped digits of limb i and drop the limbs after it; u is one unit of the last kept digit. */
  method Truncate(x: Num, i: nat, c: nat, r: nat, kept: int) returns (d: seq<int>, u: int)
    requires Canonical(x) && !IsZero(x) && i < |x.d| && c == x.d[i] && r == Digits(c)
    requires 0 <= kept <= 6 && (i == 0 ==> r > 7 - kept)
    ensures |d| > 0 && AreLimbs(d) && d[0] > 0 && Digits(d[0]) == Digits(x.d[0])
    ensures u >= 1 && d[|d| - 1] % u == 0 && LIMB_BASE % u == 0
    ensures var unit := Ten(7 * (Top(x) - i) + (7 - kept));
            && LimbValue(d, Top(x)) == Units(Kept(x.d, i, 7 - kept), unit)
            && Units(u, Weight(Top(x) - (|d| - 1))) == unit
  {
    hide Ten, Weight, Units, LimbValue, High, Low, Digits, Pow10, Kept;
    var o := kept - 7 + r;
    ghost var n, top := 7 - kept, Top(x);
    UnitDividesLimb(n, High(c, n));
    TruncatedValue(x.d, top, i, n);
    OneDigit();
    if r > n { KeepLeading(c, n); } else { AllLow(c, n); }
    ValueOfZero(x);
    if kept == 0 {
      LimbDigits(c);
      d, u := x.d[..i], 1;
      UnitsAdd(0, 1, Weight(top - i + 1));
    } else {
      u := Pow10(7 - kept);
      if o > 0 { SmallModulus(High(c, r - o), Pow10(o)); }
      var limb := if o > 0 then High(c, r - o) % Pow10(o) * u else 0;
      assert limb == High(c, n) * Pow10(n);
      d := x.d[..i] + [limb];
    }
  }

  lemma SmallModulus(h: nat, m: nat)
    requires h < m
    ensures h % m == h
  {
  }

  /** The reference rounding, computed from the split at limb i. */
  lemma RoundingOf(x: Num, sd: int, mode: Mode, i: nat, n: nat)
    requires Canonical(x) && !IsZero(x) && i < |x.d| && n >= 1 && (i > 0 ==> n <= 7)
    requires sd == Digits(x.d[0]) + 7 * i - n
    ensures var q, k := 7 * (Top(x) - i) + n, Kept(x.d, i, n);
            var part := Dropped(x.d[i], n, LimbValue(x.d[i + 1..], Top(x) - i - 1), Weight(Top(x) - i));
            && q == x.e - sd + 1
            && RoundAt(Value(x), q, mode)
               == Signed(x.s < 0, Units(if RoundsAway(mode, x.s < 0, k, part, Ten(q)) then k + 1 else k, Ten(q)))
  {
    hide Ten, Weight, Units, LimbValue, Digits, Pow10, RoundsAway, Kept, Dropped, RoundAt;
    CanonicalExponent(x);
    SplitAtDigit(x.d, Top(x), i, n);
    RoundsUpIsRoundsAway(x.d, Top(x), i, n, mode, x.s < 0);
    RoundFromSplit(x, sd, mode, Kept(x.d, i, n),
                   Dropped(x.d[i], n, LimbValue(x.d[i + 1..], Top(x) - i - 1), Weight(Top(x) - i)));
  }

  /** Nothing is kept: the result is a single unit or zero. */
  lemma OneUnitOrZero(x: Num, y: Num, sd: int, mode: Mode, up: bool)
    requires Canonical(x) && y.s == x.s && (sd < 1 || IsZero(x))
    requires IsZero(x) ==> (up <==> sd < 0 && (mode == 0 || mode == if x.s < 0 then 3 else 2))
    requires sd <= Digits(x.d[0]) - 1
    requires !IsZero(x) ==> up == RoundsAway(mode, x.s < 0, Kept(x.d, 0, Digits(x.d[0]) - sd),
      Dropped(x.d[0], Digits(x.d[0]) - sd, LimbValue(x.d[1..], Top(x) - 1), Weight(Top(x))),
      Ten(7 * Top(x) + (Digits(x.d[0]) - sd)))
    requires !up ==> y.d == [0] && y.e == 0
    requires up ==>
      && y.e == x.e - sd + 1 && LimbValue(y.d, y.e / 7) == Ten(y.e)
      && AreLimbs(y.d) && |y.d| == 1 && y.d[0] > 0 && y.e % 7 + 1 == Digits(y.d[0])
    ensures Canonical(y)
    ensures !IsZero(x) ==> Value(y) == RoundAt(Value(x), x.e - sd + 1, mode)
    ensures IsZero(x) ==> Value(y) == Decimal.RoundedZero(x, sd, mode)
  {
    hide Ten, Weight, Units, LimbValue, Digits, Pow10, RoundsAway, Dropped, RoundAt, Kept, High, Low;
    ValueOfZero(x);
    ValueOfZero(y);
    UnitsAdd(0, 1, Ten(x.e - sd + 1));
    if !IsZero(x) {
      var n := Digits(x.d[0]) - sd;
      KeptCases(x.d, 0, n);
      AllLow(x.d[0], n);
      RoundingOf(x, sd, mode, 0, n);
    }
  }

  lemma ZeroParts(n: nat)
    ensures High(0, n) == 0 && Low(0, n) == 0
  {
    Pow10Monotone(0, n);
  }

  lemma AlreadyShort(x: Num, sd: int, mode: Mode)
    requires Canonical(x) && sd >= Digits(x.d[0]) && CeilDiv(sd - Digits(x.d[0]) + 1, 7) >= |x.d|
    ensures !IsZero(x) ==> Value(x) == RoundAt(Value(x), x.e - sd + 1, mode)
    ensures IsZero(x) ==> Value(x) == 0.0 && sd > 0
  {
    hide Weight, Units, LimbValue, Digits, Pow10;
    ValueOfZero(x);
    var low, q := 7 * (Top(x) - |x.d| + 1), x.e - sd + 1;
    BigValue(x.d, Top(x));
    TenPositive(q);
    if !IsZero(x) {
      assert q <= low;
      TenAdd(q, low - q);
      UnitsNest(Big(x.d), Pow10(low - q), Ten(q));
      UnitsAdd(0, Big(x.d) * Pow10(low - q), Ten(q));
      assert Weight(Top(x) - |x.d| + 1) == Ten(low) by { LowWeight(x); }
      assert Magnitude(x) == Units(Big(x.d) * Pow10(low - q), Ten(q));
      assert Value(x) == Units(if x.s < 0 then 0 - Big(x.d) * Pow10(low - q) else Big(x.d) * Pow10(low - q), Ten(q));
      RoundingContract(Value(x), Ten(q), mode);
    }
  }

  lemma LowWeight(x: Num)
    ensures Weight(Top(x) - |x.d| + 1) == Ten(7 * (Top(x) - |x.d| + 1))
  {
  }

  /** Rounding a canonical number, given its split into kept units and dropped part. */
  lemma RoundFromSplit(x: Num, sd: int, mode: Mode, k: int, part: real)
    requires Canonical(x) && !IsZero(x)
    requires 0.0 <= part < Ten(x.e - sd + 1) && Magnitude(x) == Units(k, Ten(x.e - sd + 1)) + part
    ensures var u, away := Ten(x.e - sd + 1), RoundsAway(mode, x.s < 0, k, part, Ten(x.e - sd + 1));
            RoundAt(Value(x), x.e - sd + 1, mode) == Signed(x.s < 0, Units(if away then k + 1 else k, u))
  {
    hide Ten, Units, LimbValue, Digits;
    ValueOfZero(x);
    TenPositive(x.e - sd + 1);
    RoundSplit(Value(x), Ten(x.e - sd + 1), mode, k, part);
  }

  /** The one-limb number the code builds for a single unit 10^-q. */
  lemma PowerOfTen(e: int, d: seq<int>, q: int)
    requires e == -q && d == [Pow10((7 - Remainder(q, 7)) % 7)]
    ensures LimbValue(d, e / 7) == Ten(e) && AreLimbs(d) && d[0] > 0 && e % 7 + 1 == Digits(d[0])
  {
    hide Units;
    var n := e % 7;
    assert (7 - Remainder(q, 7)) % 7 == n;
    SingleLimb(d[0], e / 7);
    UnitOfLimb(e / 7, n);
    assert 7 * (e / 7) + n == e;
    Pow10Monotone(0, n);
    Pow10Monotone(n, 6);
    assert Pow10(6) < LIMB_BASE;
    assert Pow10(n + 1) == 10 * Pow10(n);
    DigitsUnique(Pow10(n), n + 1);
  }
}
