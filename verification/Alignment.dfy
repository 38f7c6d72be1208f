/** Bringing two operands to a common limb exponent, and what the length limit on the way does to the sum. */
module Alignment {
  import opened Limbs
  import opened DecimalValue
  import opened LimbLoops
  import opened Rounding

  /** Settings of the Decimal constructor, and the module-wide switch that turns final rounding on. */
  datatype Settings = Settings(precision: nat, rounding: Mode, roundResults: bool)

  function CeilDiv(x: nat, y: nat): nat
    requires y > 0
  {
    (x + y - 1) / y
  }

  /** How far the smaller operand may be shifted before it is replaced by its first limb. */
  function ShiftLimit(precision: nat, length: nat, extra: nat): nat {
    (if CeilDiv(precision, 7) > length then CeilDiv(precision, 7) else length) + extra
  }

  /** The smaller operand as it enters the sum under limb exponent top. */
  function Cut(y: Num, top: int, limit: nat): Num
    requires |y.d| > 0 && AreLimbs(y.d)
  {
    if top - Top(y) > limit then Num(y.s, 7 * (top - limit) + Digits(y.d[0]) - 1, [y.d[0]]) else y
  }

  /** plus allows one limb beyond the longer of precision and operand, minus two. */
  function Extra(a: Num, b: Num): nat {
    if a.s == b.s then 1 else 2
  }

  /** The operands that are really added. */
  ghost function Operands(a: Num, b: Num, precision: nat): (Num, Num)
    requires Canonical(a) && Canonical(b)
  {
    if IsZero(a) || IsZero(b) then (a, b)
    else if Top(a) < Top(b) then (Cut(a, Top(b), ShiftLimit(precision, |b.d|, Extra(a, b))), b)
    else (a, Cut(b, Top(a), ShiftLimit(precision, |a.d|, Extra(a, b))))
  }

  /** A caller can check this before adding: the limb exponents are close enough for the shift limit. */
  predicate WithinCutoff(a: Num, b: Num, precision: nat) {
    || IsZero(a) || IsZero(b)
    || (Top(b) - Top(a) <= ShiftLimit(precision, |b.d|, Extra(a, b))
        && Top(a) - Top(b) <= ShiftLimit(precision, |a.d|, Extra(a, b)))
  }

  /** What an addition must return. */
  ghost predicate IsSum(a: Num, b: Num, cfg: Settings, r: Num)
    requires Canonical(a) && Canonical(b)
  {
    && (!cfg.roundResults ==>
          Value(r) == Value(Operands(a, b, cfg.precision).0) + Value(Operands(a, b, cfg.precision).1))
    && (!cfg.roundResults ==> (Value(r) == Value(a) + Value(b) <==> WithinCutoff(a, b, cfg.precision)))
    && (cfg.roundResults ==> CorrectlyRounded(Value(a) + Value(b), cfg.precision, cfg.rounding, Value(r)))
  }

  /** The cut-off as a gap in limbs, without the functions that compute it: with the operands in either order, the
      larger exponent leads by at most one limb (same signs) or two limbs (opposite signs) more than both the number
      of limbs that hold `precision` digits and the length of the leading operand allow. */
  lemma CutoffAsGap(a: Num, b: Num, precision: nat, digits: nat)
    requires Canonical(a) && Canonical(b) && !IsZero(a) && !IsZero(b)
    requires 7 * (digits - 1) < precision <= 7 * digits
    ensures WithinCutoff(a, b, precision) <==>
      var gap, spare := a.e / 7 - b.e / 7, if a.s == b.s then 1 else 2;
      var length := if gap > 0 then |a.d| else |b.d|;
      var room := (if digits > length then digits else length) + spare;
      -room <= gap <= room
  {
    hide LimbValue, Digits, AreLimbs;
    CeilIs(precision, digits);
    assert ShiftLimit(precision, |a.d|, Extra(a, b)) >= 0 && ShiftLimit(precision, |b.d|, Extra(a, b)) >= 0;
  }

  lemma CeilIs(x: nat, n: nat)
    requires 7 * (n - 1) < x <= 7 * n
    ensures CeilDiv(x, 7) == n
  {
  }

  // ----- The cut operand -----------------------------------------------------------------

  lemma CutShape(y: Num, top: int, limit: nat)
    requires Canonical(y) && !IsZero(y)
    ensures var z := Cut(y, top, limit);
            && Canonical(z) && !IsZero(z) && z.s == y.s
            && Top(z) == (if top - Top(y) > limit then top - limit else Top(y))
            && z.d == (if top - Top(y) > limit then y.d[..1] else y.d)
  {
    hide Ten, Weight, Units, LimbValue;
    ValueOfZero(y);
    LimbDigits(y.d[0]);
  }

  /** A cut operand is strictly larger than the original, and both stay below one unit of the limb above the cut. */
  lemma CutValue(y: Num, top: int, limit: nat)
    requires Canonical(y) && !IsZero(y) && top - Top(y) > limit
    ensures 0.0 < Magnitude(y) < Magnitude(Cut(y, top, limit)) < Weight(top - limit + 1)
  {
    hide Ten, Weight, Units, LimbValue, Digits, Cut;
    var z := Cut(y, top, limit);
    CutShape(y, top, limit);
    ValueOfZero(y);
    ValueOfZero(z);
    LimbBound(y.d, Top(y));
    LimbBound(z.d, Top(z));
    LimbLead(z.d, Top(z));
    WeightStep(Top(z));
    UnitsOrder(1, z.d[0], Weight(Top(z)));
    UnitsAdd(0, 1, Weight(Top(z)));
    WeightOrder(Top(y) + 1, Top(z));
  }

  lemma WeightOrder(j: int, k: int)
    requires j <= k
    ensures 0.0 < Weight(j) <= Weight(k)
  {
    hide Ten;
    TenMonotone(7 * j, 7 * k);
  }

  /** The sum of the cut operands is the exact sum precisely within the cut-off. */
  lemma ExactIffWithinCutoff(a: Num, b: Num, precision: nat)
    requires Canonical(a) && Canonical(b)
    ensures var (x, y) := Operands(a, b, precision);
            Value(x) + Value(y) == Value(a) + Value(b) <==> WithinCutoff(a, b, precision)
  {
    hide Ten, Weight, Units, LimbValue, Digits, ShiftLimit;
    if !WithinCutoff(a, b, precision) {
      if Top(a) < Top(b) {
        CutShape(a, Top(b), ShiftLimit(precision, |b.d|, Extra(a, b)));
        CutValue(a, Top(b), ShiftLimit(precision, |b.d|, Extra(a, b)));
      } else {
        CutShape(b, Top(a), ShiftLimit(precision, |a.d|, Extra(a, b)));
        CutValue(b, Top(a), ShiftLimit(precision, |a.d|, Extra(a, b)));
      }
    }
  }

  // ----- Rounding does not see the cut -----------------------------------------------------

  /** Beyond the cut-off, the sums of big with the original and with the cut operand lie in one cell of the
      grid just above the cut. */
  lemma CutCell(big: Num, small: Num, precision: nat) returns (m: nat)
    requires Canonical(big) && Canonical(small) && !IsZero(big) && !IsZero(small)
    requires Top(big) - Top(small) > ShiftLimit(precision, |big.d|, Extra(big, small))
    ensures var limit := ShiftLimit(precision, |big.d|, Extra(big, small));
            var g := Weight(Top(big) - limit + 1);
            var v, v' := Value(big) + Value(small), Value(big) + Value(Cut(small, Top(big), limit));
            && InCell(v, m, g) && InCell(v', m, g) && (v < 0.0 <==> big.s == -1) && (v' < 0.0 <==> big.s == -1)
            && Abs(v') >= Magnitude(big) - (if big.s == small.s then 0.0 else g)
  {
    hide Ten, Weight, Units, LimbValue, Digits, Cut, Pow10;
    var limit := ShiftLimit(precision, |big.d|, Extra(big, small));
    var low, grid := Top(big) - |big.d| + 1, Top(big) - limit + 1;
    CutShape(small, Top(big), limit);
    CutValue(small, Top(big), limit);
    ValueOfZero(big);
    ValueOfZero(small);
    BigValue(big.d, Top(big));
    WeightRatio(grid, low);
    var n := Pow10(7 * (low - grid));
    UnitsNest(Big(big.d), n, Weight(grid));
    var whole := Big(big.d) * n;
    WeightOrder(grid, grid);
    UnitsAdd(0, 0, Weight(grid));
    if whole <= 0 { UnitsOrder(whole, 0, Weight(grid)); }
    UnitsAdd(whole, 1, Weight(grid));
    UnitsOrder(1, whole, Weight(grid));
    m := if big.s == small.s then whole else whole - 1;
  }

  lemma WeightRatio(j: int, k: int)
    requires j <= k
    ensures Weight(k) == Units(Pow10(7 * (k - j)), Weight(j))
  {
    hide Units;
    TenAdd(7 * j, 7 * (k - j));
  }

  lemma CutIsRounded(big: Num, small: Num, precision: nat, mode: Mode, e: int)
    requires Canonical(big) && Canonical(small) && !IsZero(big) && !IsZero(small) && precision >= 1
    requires Top(big) - Top(small) > ShiftLimit(precision, |big.d|, Extra(big, small))
    requires HasExponent(Value(big) + Value(Cut(small, Top(big), ShiftLimit(precision, |big.d|, Extra(big, small)))), e)
    ensures var limit := ShiftLimit(precision, |big.d|, Extra(big, small));
            CorrectlyRounded(Value(big) + Value(small), precision, mode,
                             RoundAt(Value(big) + Value(Cut(small, Top(big), limit)), e - precision + 1, mode))
  {
    hide Ten, Units, LimbValue, Digits, Cut, Pow10, RoundAt, CorrectlyRounded;
    var limit := ShiftLimit(precision, |big.d|, Extra(big, small));
    var grid := Top(big) - limit + 1;
    var v' := Value(big) + Value(Cut(small, Top(big), limit));
    var m := CutCell(big, small, precision);
    LeadingDigit(big);
    CanonicalExponent(big);
    LimbDigits(big.d[0]);
    if big.s == small.s {
      if e < 7 * Top(big) { TenMonotone(e + 1, big.e); }
    } else {
      TenMonotone(7 * Top(big), big.e);
      TenStep(7 * Top(big) - 1);
      TenMonotone(7 * grid, 7 * Top(big) - 1);
      TenPositive(7 * Top(big) - 1);
      if e < 7 * Top(big) - 1 { TenMonotone(e + 1, 7 * Top(big) - 1); }
    }
    RoundedThroughCell(Value(big) + Value(small), v', m, 7 * grid, e, precision, mode);
  }

  lemma CanonicalExponent(x: Num)
    requires Canonical(x)
    ensures x.e == 7 * Top(x) + Digits(x.d[0]) - 1 && x.e % 7 + 1 == Digits(x.d[0])
  {
  }

  /** Rounding the sum of the operands that were really added rounds the exact sum. */
  lemma RoundedSum(a: Num, b: Num, precision: nat, mode: Mode, r: Num)
    requires Canonical(a) && Canonical(b) && Canonical(r) && precision >= 1
    requires var (x, y) := Operands(a, b, precision); Value(r) == Value(x) + Value(y)
    ensures IsZero(r) ==> Value(a) + Value(b) == 0.0
    ensures !IsZero(r) ==>
      CorrectlyRounded(Value(a) + Value(b), precision, mode, RoundAt(Value(r), r.e - precision + 1, mode))
  {
    hide Ten, Weight, Units, LimbValue, Digits, ShiftLimit, Cut, RoundAt;
    ExactIffWithinCutoff(a, b, precision);
    ValueOfZero(r);
    if !IsZero(r) { LeadingDigit(r); }
    if !WithinCutoff(a, b, precision) {
      if Top(a) < Top(b) {
        var m := CutCell(b, a, precision);
        NonzeroCell(Value(r), m, Weight(Top(b) - ShiftLimit(precision, |b.d|, Extra(b, a)) + 1));
        CutIsRounded(b, a, precision, mode, r.e);
      } else {
        var m := CutCell(a, b, precision);
        NonzeroCell(Value(r), m, Weight(Top(a) - ShiftLimit(precision, |a.d|, Extra(a, b)) + 1));
        CutIsRounded(a, b, precision, mode, r.e);
      }
    }
  }

  lemma NonzeroCell(v: real, m: nat, g: real)
    requires g > 0.0 && InCell(v, m, g)
    ensures v != 0.0
  {
    hide Units;
    UnitsAdd(0, 0, g);
    UnitsOrder(0, m, g);
  }

  // ----- The shift ---------------------------------------------------------------------------

  /** Keep only the first limb if the gap exceeds the limit, then shift down by pushing zero limbs in front. */
  method ShiftSmaller(y: Num, gap: nat, limit: nat) returns (shifted: seq<int>, shift: nat)
    requires Canonical(y) && !IsZero(y)
    ensures shift == (if gap > limit then limit else gap) && |shifted| > shift
    ensures AreLimbs(shifted) && forall k :: 0 <= k < shift ==> shifted[k] == 0
    ensures LimbValue(shifted, Top(y) + gap) == Magnitude(Cut(y, Top(y) + gap, limit))
  {
    hide Weight, Units, LimbValue, Digits, Cut;
    CutShape(y, Top(y) + gap, limit);
    var limbs := y.d;
    shift := gap;
    if gap > limit {
      shift, limbs := limit, y.d[..1];
    }
    shifted := ShiftDown(limbs, shift);
    LimbSplit(Zeros(shift), limbs, Top(y) + gap);
    LimbZeros(Zeros(shift), Top(y) + gap);
  }

  /** Both operands as limb lists under the larger limb exponent; the first `shift` limbs of the smaller are zero. */
  method Align(a: Num, b: Num, precision: nat) returns (f: seq<int>, c: seq<int>, top: int, shift: nat)
    requires Canonical(a) && Canonical(b) && !IsZero(a) && !IsZero(b)
    ensures AreLimbs(f) && AreLimbs(c) && |f| > 0 && |c| > 0
    ensures var (x, y) := Operands(a, b, precision);
            LimbValue(f, top) == Magnitude(x) && LimbValue(c, top) == Magnitude(y)
    ensures var (x, y) := Operands(a, b, precision); x.s == a.s && y.s == b.s
    ensures shift > 0 <==> Top(a) != Top(b)
    ensures Top(a) < Top(b) ==> |f| > shift && (forall k :: 0 <= k < shift ==> f[k] == 0) && c == b.d && c[0] > 0
    ensures Top(a) > Top(b) ==> |c| > shift && (forall k :: 0 <= k < shift ==> c[k] == 0) && f == a.d && f[0] > 0
    ensures Top(a) == Top(b) ==> f == a.d && c == b.d && f[0] > 0 && c[0] > 0
  {
    hide Weight, Units, LimbValue, Digits;
    ValueOfZero(a);
    ValueOfZero(b);
    f, c, top, shift := a.d, b.d, Top(b), 0;
    if Top(a) < Top(b) {
      CutShape(a, Top(b), ShiftLimit(precision, |b.d|, Extra(a, b)));
      f, shift := ShiftSmaller(a, Top(b) - Top(a), ShiftLimit(precision, |b.d|, Extra(a, b)));
    } else if Top(a) > Top(b) {
      CutShape(b, Top(a), ShiftLimit(precision, |a.d|, Extra(a, b)));
      top := Top(a);
      c, shift := ShiftSmaller(b, Top(a) - Top(b), ShiftLimit(precision, |a.d|, Extra(a, b)));
    }
  }

  // ----- Putting the result together -----------------------------------------------------------

  /** The base-10 exponent of a limb list: 7 per limb, plus the digits of the first limb less one. */
  method ExponentOf(d: seq<int>, top: int) returns (e: int)
    requires |d| > 0 && d[0] >= 0
    ensures e == 7 * top + Digits(d[0]) - 1
  {
    e := top * 7;
    var i := d[0];
    while i >= 10
      invariant i >= 0 && e + Digits(i) == 7 * top + Digits(d[0])
    {
      i, e := i / 10, e + 1;
    }
  }

  /** A stripped limb list and its exponent make a canonical number of the same magnitude. */
  lemma Assembled(s: int, d: seq<int>, e: int, top: int)
    requires (s == 1 || s == -1) && AreLimbs(d) && |d| > 0 && d[0] > 0 && d[|d| - 1] != 0
    requires e == 7 * top + Digits(d[0]) - 1
    ensures var r := Num(s, e, d); Canonical(r) && !IsZero(r) && Top(r) == top && Magnitude(r) == LimbValue(d, top)
  {
    hide LimbValue, Digits;
    LimbDigits(d[0]);
  }

  /** A first limb that is not zero makes the value at least one unit of its weight, and conversely. */
  lemma FirstLimb(d: seq<int>, top: int)
    requires AreLimbs(d) && |d| > 0
    ensures d[0] > 0 <==> LimbValue(d, top) >= Weight(top)
  {
    hide Weight, Units, LimbValue;
    LimbLead(d, top);
    WeightStep(top);
    UnitsAdd(0, 1, Weight(top));
    UnitsOrder(1, d[0], Weight(top));
    UnitsOrder(d[0], 0, Weight(top));
  }
}
