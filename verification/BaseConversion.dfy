/** Conversion of a digit string from one base to another by Horner's rule with a carry pass per digit. */
module BaseConversion {
  import opened Basics

  const NUMERALS := "0123456789abcdef"

  /** Position of c among the numerals, -1 if it is none. */
  function IndexOf(c: char): (i: int)
    ensures -1 <= i < 16 && (i >= 0 ==> NUMERALS[i] == c)
  {
    IndexFrom(c, 0)
  }

  function IndexFrom(c: char, from: nat): (i: int)
    requires from <= 16
    ensures i == -1 || (from <= i < 16 && NUMERALS[i] == c)
    decreases 16 - from
  {
    if from == 16 then -1 else if NUMERALS[from] == c then from else IndexFrom(c, from + 1)
  }

  lemma NumeralAt(k: nat)
    requires k < 16
    ensures NUMERALS[k] as int == if k < 10 then '0' as int + k else 'a' as int + k - 10
  {
    assert NUMERALS == ['0', '1', '2', '3', '4', '5', '6', '7', '8', '9', 'a', 'b', 'c', 'd', 'e', 'f'];
  }

  /** The numerals are the decimal digits and the first six small letters, with their usual values. */
  lemma NumeralValue(c: char)
    ensures IndexOf(c) == if '0' <= c <= '9' then c as int - '0' as int
                          else if 'a' <= c <= 'f' then c as int - 'a' as int + 10 else -1
  {
    hide IndexFrom, NUMERALS;
    var i := IndexOf(c);
    if i >= 0 {
      NumeralAt(i);
    } else {
      NumeralFrom(c, 0);
      if '0' <= c <= '9' { NumeralAt(c as int - '0' as int); }
      if 'a' <= c <= 'f' { NumeralAt(c as int - 'a' as int + 10); }
    }
  }

  lemma {:induction false} NumeralFrom(c: char, from: nat)
    requires from <= 16
    ensures IndexFrom(c, from) == -1 <==> forall k :: from <= k < 16 ==> NUMERALS[k] != c
    decreases 16 - from
  {
    if from < 16 && NUMERALS[from] != c { NumeralFrom(c, from + 1); }
  }

  /** The value of a numeral string, most significant digit first. */
  function StringValue(str: string, base: nat): int {
    if str == "" then 0 else StringValue(str[..|str| - 1], base) * base + IndexOf(str[|str| - 1])
  }

  /** The value of a digit list, least significant digit first. */
  function LowFirst(d: seq<int>, base: nat): int {
    if d == [] then 0 else d[0] + base * LowFirst(d[1..], base)
  }

  /** The value of a digit list, most significant digit first. */
  function HighFirst(d: seq<int>, base: nat): int {
    if d == [] then 0 else HighFirst(d[..|d| - 1], base) * base + d[|d| - 1]
  }

  lemma {:induction false} ReversedValue(d: seq<int>, base: nat)
    ensures HighFirst(Reversed(d), base) == LowFirst(d, base)
  {
    if d != [] {
      assert Reversed(d)[..|d| - 1] == Reversed(d[1..]);
      ReversedValue(d[1..], base);
    }
  }

  ghost predicate AreDigits(d: seq<int>, base: nat) {
    forall k :: 0 <= k < |d| ==> 0 <= d[k] < base
  }

  ghost predicate NoLeadingZero(d: seq<int>) {
    |d| > 0 && (|d| == 1 || d[|d| - 1] > 0)
  }

  lemma {:induction false} LowUpdate(d: seq<int>, k: nat, v: int, base: nat)
    requires k < |d|
    ensures LowFirst(d[k := v], base) == LowFirst(d, base) + (v - d[k]) * Power(base, k)
  {
    if k == 0 {
      assert d[k := v][1..] == d[1..];
    } else {
      assert d[k := v][1..] == d[1..][k - 1 := v];
      LowUpdate(d[1..], k - 1, v, base);
      Distribute(base, LowFirst(d[1..], base), v - d[k], Power(base, k - 1));
    }
  }

  function Power(base: nat, k: nat): nat {
    if k == 0 then 1 else base * Power(base, k - 1)
  }

  lemma Distribute(b: int, x: int, y: int, p: int)
    ensures b * (x + y * p) == b * x + y * (b * p)
  {
  }

  lemma {:induction false} LowAppendZero(d: seq<int>, base: nat)
    ensures LowFirst(d + [0], base) == LowFirst(d, base)
  {
    if d == [] {
      assert [0][1..] == [];
    } else {
      assert (d + [0])[1..] == d[1..] + [0];
      LowAppendZero(d[1..], base);
    }
  }

  /** Multiply every digit by n, without carrying. */
  method Scale(d: seq<int>, n: nat, ghost base: nat) returns (r: seq<int>)
    requires AreDigits(d, base) && base >= 1 && base * n <= SAFE_INTEGER
    ensures |r| == |d| && forall k :: 0 <= k < |d| ==> r[k] == d[k] * n && 0 <= r[k] <= (base - 1) * n
    ensures LowFirst(r, base) == LowFirst(d, base) * n
  {
    r := d;
    var s := |r|;
    while s > 0
      invariant 0 <= s <= |d| == |r|
      invariant forall k :: 0 <= k < s ==> r[k] == d[k]
      invariant forall k :: s <= k < |d| ==> r[k] == d[k] * n && 0 <= r[k] <= (base - 1) * n
    {
      s := s - 1;
      DigitTimes(d[s], base - 1, n);
      r := r[s := d[s] * n];
    }
    ScaledValue(d, r, n, base);
  }

  lemma DigitTimes(x: nat, y: nat, n: nat)
    requires x <= y
    ensures 0 <= x * n <= y * n
  {
  }

  lemma {:induction false} ScaledValue(d: seq<int>, r: seq<int>, n: nat, base: nat)
    requires |r| == |d| && forall k :: 0 <= k < |d| ==> r[k] == d[k] * n
    ensures LowFirst(r, base) == LowFirst(d, base) * n
  {
    if d != [] {
      ScaledValue(d[1..], r[1..], n, base);
      Factor(d[0], base, LowFirst(d[1..], base), n);
    }
  }

  lemma Factor(x: int, b: int, y: int, n: int)
    ensures x * n + b * (y * n) == (x + b * y) * n
  {
  }

  /** Moving the quotient of digit t into digit t + 1 keeps the value. */
  lemma CarryStep(r: seq<int>, t: nat, base: nat)
    requires t + 1 < |r| && base > 0
    ensures LowFirst(r[t + 1 := r[t + 1] + r[t] / base][t := r[t] % base], base) == LowFirst(r, base)
  {
    hide LowFirst;
    var q, m := r[t] / base, r[t] % base;
    LowUpdate(r, t + 1, r[t + 1] + q, base);
    LowUpdate(r[t + 1 := r[t + 1] + q], t, m, base);
    CarryBalance(r[t], base, q, m, Power(base, t));
  }

  /** One carry pass: digits at least base push their quotient into the next digit, growing the list at the end.
      Every intermediate stays below base * n. */
  method CarryPass(d: seq<int>, n: nat, base: nat, ghost width: nat) returns (r: seq<int>)
    requires base >= 2 && n >= 2 && width == base * n <= SAFE_INTEGER && n <= INT32_LIMIT && |d| > 0
    requires 0 <= d[0] < width && forall k :: 0 < k < |d| ==> 0 <= d[k] <= width - n
    requires |d| == 1 || d[|d| - 1] > 0
    ensures AreDigits(r, base) && NoLeadingZero(r) && LowFirst(r, base) == LowFirst(d, base)
  {
    hide LowFirst;
    r := d;
    var t := 0;
    while t < |r|
      invariant 0 <= t <= |r| && |r| > 0 && LowFirst(r, base) == LowFirst(d, base)
      invariant forall k :: 0 <= k < t ==> 0 <= r[k] < base
      invariant t < |r| ==> 0 <= r[t] < width
      invariant forall k :: t < k < |r| ==> 0 <= r[k] <= width - n
      invariant |r| == 1 || r[|r| - 1] > 0
      decreases |r| - t, if t < |r| then r[t] else 0
    {
      if r[t] > base - 1 {
        QuotientBelow(r[t], base, n);
        assert r[t] < SAFE_INTEGER && r[t] / base < INT32_LIMIT;
        if t + 1 == |r| {
          LowAppendZero(r, base);
          r := r + [0];
        }
        CarryStep(r, t, base);
        r := r[t + 1 := r[t + 1] + r[t] / base][t := r[t] % base];
      }
      t := t + 1;
    }
  }

  lemma Widths(base: nat, n: nat)
    ensures base * n == (base - 1) * n + n
  {
  }

  lemma QuotientBelow(x: nat, base: nat, n: nat)
    requires base >= 2 && base <= x < base * n
    ensures 0 < x / base < n && x / base < x
  {
    var q := x / base;
    if q >= n { DigitTimes(n, q, base); }
    DigitTimes(2, base, q);
  }

  lemma CarryBalance(x: int, base: nat, q: int, m: int, p: int)
    requires x == q * base + m
    ensures q * (base * p) + (m - x) * p == 0
  {
    assert (m - x) * p == -(q * base) * p;
  }

  lemma StringStep(str: string, o: nat, n: nat)
    requires o < |str|
    ensures StringValue(str[..o + 1], n) == StringValue(str[..o], n) * n + IndexOf(str[o])
  {
    assert str[..o + 1][..o] == str[..o];
  }

  lemma EmptyString(n: nat)
    ensures StringValue("", n) == 0
  {
  }

  lemma SingleDigit(x: int, base: nat)
    ensures LowFirst([x], base) == x
  {
  }

  /** Convert a numeral string from base n to base i; the result has its most significant digit first. */
  method Convert(str: string, n: nat, i: nat) returns (digits: seq<int>)
    requires n >= 2 && i >= 2 && i * n <= SAFE_INTEGER && n <= INT32_LIMIT
    requires forall k :: 0 <= k < |str| ==> 0 <= IndexOf(str[k]) < n
    ensures HighFirst(digits, i) == StringValue(str, n)
    ensures AreDigits(digits, i)
    ensures |digits| > 0 && (digits[0] == 0 ==> digits == [0])
  {
    hide LowFirst, StringValue, HighFirst;
    EmptyString(n);
    SingleDigit(0, i);
    var r := [0];
    var o := 0;
    while o < |str|
      invariant 0 <= o <= |str|
      invariant AreDigits(r, i) && NoLeadingZero(r)
      invariant LowFirst(r, i) == StringValue(str[..o], n)
    {
      ghost var before := r;
      r := Scale(r, n, i);
      LowUpdate(r, 0, r[0] + IndexOf(str[o]), i);
      Widths(i, n);
      if |r| > 1 { DigitTimes(1, before[|r| - 1], n); }
      r := r[0 := r[0] + IndexOf(str[o])];
      StringStep(str, o, n);
      o := o + 1;
      r := CarryPass(r, n, i, i * n);
    }
    assert str[..o] == str;
    ReversedValue(r, i);
    digits := Reversed(r);
  }
}
