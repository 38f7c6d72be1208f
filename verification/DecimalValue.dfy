/** What a Decimal means: a real number, its canonical form, and rounding of real numbers. */
module DecimalValue {
  import opened Limbs

  /** The three fields of a finite Decimal: sign, base-10 exponent, big-endian limbs. */
  datatype Num = Num(s: int, e: int, d: seq<int>)

  /** Rounding modes 0..8: up, down, ceil, floor, half up, half down, half even, half ceil, half floor. */
  type Mode = m: int | 0 <= m <= 8

  /** Limb exponent of the first limb; the source writes Math.floor(e / 7). */
  function Top(x: Num): int {
    x.e / 7
  }

  ghost function Magnitude(x: Num): real {
    LimbValue(x.d, Top(x))
  }

  ghost function Signed(negative: bool, m: real): real {
    if negative then -m else m
  }

  ghost function Value(x: Num): real {
    Signed(x.s < 0, Magnitude(x))
  }

  predicate IsZero(x: Num) {
    x.d == [0]
  }

  /** No leading or trailing zero limb, and an exponent that agrees with the first limb. */
  ghost predicate Canonical(x: Num) {
    && (x.s == 1 || x.s == -1)
    && |x.d| > 0 && AreLimbs(x.d)
    && if x.d[0] == 0 then x.d == [0] && x.e == 0
       else x.d[|x.d| - 1] != 0 && x.e % 7 + 1 == Digits(x.d[0])
  }

  ghost function Abs(v: real): real {
    Signed(v < 0.0, v)
  }

  lemma ValueOfZero(x: Num)
    requires Canonical(x)
    ensures IsZero(x) <==> x.d[0] == 0
    ensures IsZero(x) <==> Magnitude(x) == 0.0
    ensures IsZero(x) <==> Value(x) == 0.0
    ensures Magnitude(x) >= 0.0 && Abs(Value(x)) == Magnitude(x)
    ensures !IsZero(x) ==> (Value(x) < 0.0 <==> x.s == -1)
  {
    hide Units, Weight;
    LimbBound(x.d, Top(x));
    if x.d[0] == 0 {
      LimbZeros(x.d, Top(x));
    } else {
      LimbPositive(x.d, 0, Top(x));
    }
  }

  /** The exponent of a canonical number is the position of its leading digit. */
  lemma LeadingDigit(x: Num)
    requires Canonical(x) && !IsZero(x)
    ensures Ten(x.e) <= Magnitude(x) < Ten(x.e + 1)
    ensures HasExponent(Value(x), x.e)
  {
    hide Ten, Units, Digits, Pow10, LimbValue;
    ValueOfZero(x);
    LeadingDigitOf(x.d, Top(x));
  }

  lemma LeadingDigitOf(d: seq<int>, t: int)
    requires |d| > 0 && AreLimbs(d) && d[0] > 0
    ensures var e := 7 * t + Digits(d[0]) - 1; Ten(e) <= LimbValue(d, t) < Ten(e + 1)
  {
    hide Ten, Units, Digits, Pow10, LimbValue;
    var n := Digits(d[0]);
    DigitsBounds(d[0]);
    LimbLead(d, t);
    TenAdd(7 * t, n - 1);
    TenAdd(7 * t, n);
    TenPositive(7 * t);
    UnitsOrder(Pow10(n - 1), d[0], Weight(t));
    UnitsOrder(d[0] + 1, Pow10(n), Weight(t));
  }

  // ----- Rounding of real numbers ------------------------------------------------------

  /** How many whole units fit into m. */
  ghost function WholeUnits(m: real, u: real): int
    requires u > 0.0
  {
    (m / u).Floor
  }

  lemma WholeUnitsBounds(m: real, u: real)
    requires u > 0.0
    ensures var k := WholeUnits(m, u); Units(k, u) <= m < Units(k, u) + u
  {
    var x, k := m / u, WholeUnits(m, u);
    ProductFacts(x.Floor, x, m, u);
    hide Units, Product;
    ProductBetween(x.Floor as real, x, u);
  }

  lemma ProductFacts(k: int, x: real, m: real, u: real)
    requires u > 0.0 && x == m / u
    ensures Units(k, u) == Product(k as real, u) && Product(x, u) == m
  {
  }

  lemma ProductBetween(k: real, x: real, u: real)
    requires k <= x < k + 1.0 && u > 0.0
    ensures Product(k, u) <= Product(x, u) < Product(k, u) + u
  {
    PartBetween(x - k, u);
    assert Product(x, u) == Product(k, u) + Product(x - k, u);
    hide Product;
  }

  lemma PartBetween(part: real, u: real)
    requires 0.0 <= part < 1.0 && u > 0.0
    ensures 0.0 <= Product(part, u) < u
  {
    assert (1.0 - part) * u > 0.0;
  }

  lemma WholeUnitsUnique(m: real, u: real, k: int)
    requires u > 0.0 && Units(k, u) <= m < Units(k, u) + u
    ensures WholeUnits(m, u) == k
  {
    hide Units, WholeUnits;
    WholeUnitsBounds(m, u);
    UnitsOrder(k, WholeUnits(m, u), u);
    UnitsOrder(WholeUnits(m, u), k, u);
  }

  /** Whether a magnitude of k units and a part of a unit is rounded away from zero. */
  ghost predicate RoundsAway(mode: Mode, negative: bool, k: int, part: real, u: real) {
    if part == 0.0 then false
    else if mode == 0 then true
    else if mode == 1 then false
    else if mode == 2 then !negative
    else if mode == 3 then negative
    else if 2.0 * part != u then 2.0 * part > u
    else if mode == 4 then true
    else if mode == 5 then false
    else if mode == 6 then k % 2 == 1
    else if mode == 7 then !negative
    else negative
  }

  /** v rounded to a whole number of units u. */
  ghost function RoundToUnit(v: real, u: real, mode: Mode): real
    requires u > 0.0
  {
    var k := WholeUnits(Abs(v), u);
    var away := RoundsAway(mode, v < 0.0, k, Abs(v) - Units(k, u), u);
    Signed(v < 0.0, Units(if away then k + 1 else k, u))
  }

  /** v rounded to a whole number of units 10^q. */
  ghost function RoundAt(v: real, q: int, mode: Mode): real {
    TenPositive(q);
    RoundToUnit(v, Ten(q), mode)
  }

  ghost predicate HasExponent(v: real, e: int) {
    Ten(e) <= Abs(v) < Ten(e + 1)
  }

  /** r is v rounded to sd significant digits (for sd < 1: to the unit sd places left of the leading digit). */
  ghost predicate CorrectlyRounded(v: real, sd: int, mode: Mode, r: real) {
    if v == 0.0 then r == 0.0
    else exists e :: HasExponent(v, e) && r == RoundAt(v, e - sd + 1, mode)
  }

  lemma ExponentUnique(v: real, e: int, e': int)
    requires HasExponent(v, e) && HasExponent(v, e')
    ensures e == e'
  {
    hide Ten;
    if e < e' { TenMonotone(e + 1, e'); }
    if e' < e { TenMonotone(e' + 1, e); }
  }

  /** Correct rounding determines the result. */
  lemma CorrectlyRoundedUnique(v: real, sd: int, mode: Mode, r: real, r': real)
    requires CorrectlyRounded(v, sd, mode, r) && CorrectlyRounded(v, sd, mode, r')
    ensures r == r'
  {
    hide HasExponent, RoundAt;
    if v != 0.0 {
      var e :| HasExponent(v, e) && r == RoundAt(v, e - sd + 1, mode);
      var e' :| HasExponent(v, e') && r' == RoundAt(v, e' - sd + 1, mode);
      ExponentUnique(v, e, e');
    }
  }

  /** Computing the rounded value from any split of the magnitude into whole units and a part. */
  lemma RoundSplit(v: real, u: real, mode: Mode, k: int, part: real)
    requires u > 0.0 && 0.0 <= part < u && Abs(v) == Units(k, u) + part
    ensures var away := RoundsAway(mode, v < 0.0, k, part, u);
            RoundToUnit(v, u, mode) == Signed(v < 0.0, Units(if away then k + 1 else k, u))
  {
    hide Units, WholeUnits;
    WholeUnitsUnique(Abs(v), u, k);
  }

  ghost predicate IsMultiple(v: real, u: real) {
    exists k: int :: v == Units(k, u)
  }

  ghost predicate IsEvenMultiple(v: real, u: real) {
    exists k: int :: k % 2 == 0 && v == Units(k, u)
  }

  /** What rounding promises: a multiple of the unit, less than a unit (or at most half a unit) away,
      on the side the mode names, and v itself when v already is a multiple. Modes 4..8 break ties away from zero,
      towards zero, to the even multiple, up, and down. */
  lemma RoundingContract(v: real, u: real, mode: Mode)
    requires u > 0.0
    ensures var r := RoundToUnit(v, u, mode);
            && IsMultiple(r, u)
            && Abs(r - v) < u && (mode >= 4 ==> 2.0 * Abs(r - v) <= u)
            && (mode == 0 ==> Abs(r) >= Abs(v)) && (mode == 1 ==> Abs(r) <= Abs(v))
            && (mode == 2 ==> r >= v) && (mode == 3 ==> r <= v)
            && (IsMultiple(v, u) ==> r == v)
    ensures var r := RoundToUnit(v, u, mode);
            2.0 * Abs(r - v) == u ==>
              && (mode == 4 ==> Abs(r) > Abs(v)) && (mode == 5 ==> Abs(r) < Abs(v))
              && (mode == 6 ==> IsEvenMultiple(r, u))
              && (mode == 7 ==> r > v) && (mode == 8 ==> r < v)
  {
    hide Units, WholeUnits;
    var k := WholeUnits(Abs(v), u);
    WholeUnitsBounds(Abs(v), u);
    UnitsAdd(k, 1, u);
    UnitsAdd(0, k, u);
    UnitsAdd(0, k + 1, u);
    UnitsOrder(0, k, u);
    if k < 0 { UnitsOrder(k, 0, u); }
    var away := RoundsAway(mode, v < 0.0, k, Abs(v) - Units(k, u), u);
    var n := if away then k + 1 else k;
    assert RoundToUnit(v, u, mode) == Units(if v < 0.0 then 0 - n else n, u);
    if IsMultiple(v, u) {
      var m: int :| v == Units(m, u);
      UnitsAdd(0, m, u);
      var a := if v < 0.0 then 0 - m else m;
      assert Abs(v) == Units(a, u);
      UnitsOrder(a, k, u);
      UnitsOrder(k, a, u);
    }
  }

  /** Rounded to sd >= 1 digits, a number is a whole number of last-digit units and at most 10^sd of them. */
  lemma RoundedDigits(v: real, e: int, sd: int, mode: Mode) returns (k: int)
    requires HasExponent(v, e) && sd >= 1
    ensures RoundAt(v, e - sd + 1, mode) == Units(k, Ten(e - sd + 1))
    ensures k <= Pow10(sd) && -k <= Pow10(sd)
  {
    hide Units, Ten, RoundToUnit, Pow10;
    var u := Ten(e - sd + 1);
    TenPositive(e - sd + 1);
    RoundingContract(v, u, mode);
    TenAdd(e - sd + 1, sd);
    var m: int :| RoundAt(v, e - sd + 1, mode) == Units(m, u);
    k := m;
    var n: int := Pow10(sd);
    UnitsAdd(0, n, u);
    UnitsAdd(n, 1, u);
    UnitsAdd(0 - n, 1, u);
    UnitsOrder(n + 1, k, u);
    UnitsOrder(k, 0 - n - 1, u);
    UnitsAdd(0 - n, 1, u);
  }

  // ----- Cells: what rounding cannot see -------------------------------------------------

  /** Strictly inside the cell between m and m + 1 grid steps. */
  ghost predicate InCell(v: real, m: int, g: real) {
    Units(m, g) < Abs(v) < Units(m, g) + g
  }

  /** Two numbers of one sign inside one cell round alike, as long as half a unit is a whole number of grid steps. */
  lemma CellRounding(v: real, v': real, m: nat, g: real, j: nat, mode: Mode)
    requires g > 0.0 && j > 0 && InCell(v, m, g) && InCell(v', m, g) && (v < 0.0 <==> v' < 0.0)
    ensures Units(2 * j, g) > 0.0
    ensures RoundToUnit(v, Units(2 * j, g), mode) == RoundToUnit(v', Units(2 * j, g), mode)
  {
    hide Units, WholeUnits;
    var u, k, h := Units(2 * j, g), m / (2 * j), m % (2 * j);
    UnitsAdd(0, 0, g);
    UnitsOrder(0, 2 * j, g);
    UnitsNest(k, 2 * j, g);
    UnitsAdd(k * (2 * j), h, g);
    assert m == k * (2 * j) + h;
    UnitsOrder(0, h, g);
    UnitsOrder(h + 1, 2 * j, g);
    UnitsAdd(h, 1, g);
    UnitsAdd(j, j, g);
    UnitsOrder(j, h, g);
    UnitsOrder(h + 1, j, g);
    RoundSplit(v, u, mode, k, Abs(v) - Units(k, u));
    RoundSplit(v', u, mode, k, Abs(v') - Units(k, u));
  }

  /** ... and have the same leading digit, as long as the power of ten below is a whole number of grid steps. */
  lemma CellExponent(v: real, v': real, m: nat, t: int, e: int)
    requires InCell(v, m, Ten(t)) && InCell(v', m, Ten(t)) && HasExponent(v', e) && t <= e
    ensures HasExponent(v, e)
  {
    hide Units, Ten, Pow10;
    TenPositive(t);
    TenAdd(t, e - t);
    TenAdd(t, e + 1 - t);
    UnitsAdd(m, 1, Ten(t));
    UnitsOrder(Pow10(e - t), m, Ten(t));
    UnitsOrder(m + 1, Pow10(e - t), Ten(t));
    UnitsOrder(Pow10(e + 1 - t), m, Ten(t));
    UnitsOrder(m + 1, Pow10(e + 1 - t), Ten(t));
  }

  /** If an approximation shares a fine enough cell with the exact value, rounding it rounds the exact value. */
  lemma RoundedThroughCell(v: real, v': real, m: nat, t: int, e: int, sd: int, mode: Mode)
    requires InCell(v, m, Ten(t)) && InCell(v', m, Ten(t)) && (v < 0.0 <==> v' < 0.0)
    requires HasExponent(v', e) && t <= e && t < e - sd + 1
    ensures CorrectlyRounded(v, sd, mode, RoundAt(v', e - sd + 1, mode))
  {
    hide Units, Ten, RoundToUnit;
    var q := e - sd + 1;
    CellExponent(v, v', m, t, e);
    TenPositive(t);
    TenAdd(t, q - t);
    assert Pow10(q - t) == 2 * (5 * Pow10(q - t - 1));
    Pow10Monotone(0, q - t - 1);
    CellRounding(v, v', m, Ten(t), 5 * Pow10(q - t - 1), mode);
    UnitsAdd(0, 0, Ten(t));
    UnitsOrder(0, m, Ten(t));
    assert HasExponent(v, e) && RoundAt(v, q, mode) == RoundAt(v', q, mode);
  }
}
