/** The carry and borrow loops of plus, minus and times over limb lists. */
module LimbLoops {
  import opened Basics
  import opened Limbs

  // ----- Addition ------------------------------------------------------------------

  /** One carry step keeps the total: v + 10^7 * out is the sum x + y + carry. */
  lemma CarryStep(x: int, y: int, carry: int, v: int, out: int, t: int)
    requires v + LIMB_BASE * out == x + y + carry
    ensures Units(v - x, Weight(t)) + Units(out, Weight(t + 1)) == Units(y, Weight(t)) + Units(carry, Weight(t))
  {
    hide Weight, Units;
    var w := Weight(t);
    WeightStep(t);
    UnitsNest(out, LIMB_BASE, w);
    UnitsAdd(v - x, out * LIMB_BASE, w);
    UnitsAdd(y, carry, w);
    assert v - x + out * LIMB_BASE == y + carry;
  }

  /** Add the shorter list c into f, limb by limb from the right; both start at the same limb exponent. */
  method AddLimbs(f: seq<int>, c: seq<int>, ghost top: int) returns (r: seq<int>, carry: int)
    requires AreLimbs(f) && AreLimbs(c) && |c| <= |f|
    ensures AreLimbs(r) && |r| == |f| && 0 <= carry <= 1
    ensures LimbValue(r, top) + Units(carry, Weight(top + 1)) == LimbValue(f, top) + LimbValue(c, top)
  {
    hide Weight, Units;
    r, carry := f, 0;
    var i := |c|;
    UnitsAdd(0, 0, Weight(top - i + 1));
    while i > 0
      invariant 0 <= i <= |c| && |r| == |f| && AreLimbs(r) && 0 <= carry <= 1
      invariant forall k :: 0 <= k < i ==> r[k] == f[k]
      invariant LimbValue(r, top) + Units(carry, Weight(top - i + 1)) == LimbValue(f, top) + LimbValue(c[i..], top - i)
    {
      i := i - 1;
      var sum := r[i] + c[i] + carry;
      LimbUpdate(r, i, sum % LIMB_BASE, top);
      CarryStep(r[i], c[i], carry, sum % LIMB_BASE, sum / LIMB_BASE, top - i);
      assert c[i..][0] == c[i] && c[i..][1..] == c[i + 1..];
      r, carry := r[i := sum % LIMB_BASE], sum / LIMB_BASE;
    }
    assert c[0..] == c;
  }

  // ----- Subtraction ---------------------------------------------------------------

  /** Borrow one unit of limb t for f[t]: zero limbs on the way become 9999999. */
  method Borrow(f: seq<int>, t: nat, ghost top: int) returns (r: seq<int>)
    requires AreLimbs(f) && t < |f| && LimbValue(f[..t], top) > 0.0
    ensures |r| == |f| && AreLimbs(r[..t]) && r[t] == f[t] + LIMB_BASE && r[t + 1..] == f[t + 1..]
    ensures LimbValue(r, top) == LimbValue(f, top)
  {
    hide Weight, Units;
    r := f;
    var i := t;
    LimbZeros([], top);
    if forall k :: 0 <= k < t ==> f[k] == 0 { LimbZeros(f[..t], top); }
    UnitsAdd(0, 0, Weight(top));
    while i > 0 && r[i - 1] == 0
      invariant 0 <= i <= t && |r| == |f|
      invariant forall k :: 0 <= k < i ==> r[k] == f[k]
      invariant forall k :: i <= k < t ==> f[k] == 0 && r[k] == LIMB_BASE - 1
      invariant forall k :: t <= k < |f| ==> r[k] == f[k]
      invariant LimbValue(r, top) + Weight(top - t + 1) == LimbValue(f, top) + Weight(top - i + 1)
    {
      i := i - 1;
      LimbUpdate(r, i, LIMB_BASE - 1, top);
      WeightStep(top - i);
      UnitsAdd(LIMB_BASE, 1, Weight(top - i));
      r := r[i := LIMB_BASE - 1];
    }
    assert i > 0 && f[i - 1] != 0;
    LimbUpdate(r, i - 1, r[i - 1] - 1, top);
    UnitsAdd(0, 1, Weight(top - i + 1));
    r := r[i - 1 := r[i - 1] - 1];
    LimbUpdate(r, t, r[t] + LIMB_BASE, top);
    WeightStep(top - t);
    assert r[t := r[t] + LIMB_BASE][t + 1..] == f[t + 1..];
    r := r[t := r[t] + LIMB_BASE];
  }

  /** Subtract d from the larger f, which is at least as long; the first s limbs of d are zero. */
  method SubtractLimbs(f: seq<int>, d: seq<int>, s: nat, ghost top: int) returns (r: seq<int>)
    requires AreLimbs(f) && AreLimbs(d) && s <= |d| <= |f|
    requires forall k :: 0 <= k < s ==> d[k] == 0
    requires LimbValue(f, top) >= LimbValue(d, top)
    ensures AreLimbs(r) && |r| == |f|
    ensures LimbValue(r, top) == LimbValue(f, top) - LimbValue(d, top)
  {
    hide Weight, Units;
    r := f;
    var t := |d|;
    LimbZeros([], top - t);
    while t > s
      invariant s <= t <= |d| && |r| == |f| && AreLimbs(r)
      invariant LimbValue(r, top) == LimbValue(f, top) - LimbValue(d[t..], top - t)
    {
      t := t - 1;
      assert d[t..][0] == d[t] && d[t..][1..] == d[t + 1..];
      if r[t] < d[t] {
        LimbSplit(d[..t + 1], d[t + 1..], top);
        assert d == d[..t + 1] + d[t + 1..];
        EnoughToBorrow(r, d, t, top);
        ghost var before := r;
        r := Borrow(r, t, top);
        assert forall k :: t < k < |r| ==> r[k] == r[t + 1..][k - t - 1] == before[k];
        assert forall k :: 0 <= k < t ==> r[k] == r[..t][k];
      }
      LimbUpdate(r, t, r[t] - d[t], top);
      UnitsAdd(0, d[t], Weight(top - t));
      r := r[t := r[t] - d[t]];
    }
    LimbSplit(d[..t], d[t..], top);
    assert d == d[..t] + d[t..];
    LimbZeros(d[..t], top);
  }

  /** While the rest of r covers the rest of d, a limb that is too small has something above to borrow from. */
  lemma EnoughToBorrow(r: seq<int>, d: seq<int>, t: nat, top: int)
    requires AreLimbs(r) && AreLimbs(d) && t < |d| <= |r| && r[t] < d[t]
    requires LimbValue(r, top) >= LimbValue(d[..t + 1], top)
    ensures LimbValue(r[..t], top) > 0.0
  {
    hide Weight, Units, LimbValue;
    SingleLimb(d[t], top - t);
    assert r == r[..t] + r[t..] && d[..t + 1] == d[..t] + [d[t]];
    LimbSplit(r[..t], r[t..], top);
    LimbSplit(d[..t], [d[t]], top);
    LimbLead(r[t..], top - t);
    LimbBound(d[..t], top);
    WeightStep(top - t);
    UnitsOrder(r[t] + 1, d[t], Weight(top - t));
  }

  /** Shift leading zero limbs out, lowering the limb exponent of the first limb. */
  method StripLeading(f: seq<int>, top: int) returns (r: seq<int>, t: int)
    requires AreLimbs(f)
    ensures AreLimbs(r) && LimbValue(r, t) == LimbValue(f, top) && t == top - (|f| - |r|)
    ensures |r| <= |f| && r == f[|f| - |r|..] && (r == [] || r[0] != 0)
  {
    hide Weight, Units;
    r, t := f, top;
    while r != [] && r[0] == 0
      invariant |r| <= |f| && r == f[|f| - |r|..] && AreLimbs(r)
      invariant LimbValue(r, t) == LimbValue(f, top) && t == top - (|f| - |r|)
    {
      UnitsAdd(0, 0, Weight(t));
      r, t := r[1..], t - 1;
    }
  }

  // ----- Comparison ------------------------------------------------------------------

  /** The first index at which the lists differ, or the length of the shorter one. */
  method FirstDifference(x: seq<int>, y: seq<int>) returns (k: nat)
    ensures k <= |x| && k <= |y| && x[..k] == y[..k]
    ensures k < |x| && k < |y| ==> x[k] != y[k]
  {
    k := 0;
    while k < |x| && k < |y| && x[k] == y[k]
      invariant k <= |x| && k <= |y| && x[..k] == y[..k]
    {
      k := k + 1;
    }
  }

  /** Lists with the same first limb exponent compare like words: by the first difference, then by length. */
  lemma WordOrder(x: seq<int>, y: seq<int>, k: nat, top: int)
    requires AreLimbs(x) && AreLimbs(y) && k <= |x| && k < |y| && x[..k] == y[..k]
    requires if k < |x| then x[k] < y[k] else y[|y| - 1] != 0
    ensures LimbValue(x, top) < LimbValue(y, top)
  {
    hide Weight, Units, LimbValue;
    var x', y' := x[k..], y[k..];
    assert x == x[..k] + x' && y == x[..k] + y';
    LimbSplit(x[..k], x', top);
    LimbSplit(x[..k], y', top);
    assert y'[|y'| - 1] == y[|y| - 1] && (k < |x| ==> x'[0] < y'[0]);
    FirstDecides(x', y', top - k);
  }

  lemma FirstDecides(x: seq<int>, y: seq<int>, top: int)
    requires AreLimbs(x) && AreLimbs(y) && |y| > 0
    requires if |x| > 0 then x[0] < y[0] else y[|y| - 1] != 0
    ensures LimbValue(x, top) < LimbValue(y, top)
  {
    hide Weight, Units, LimbValue;
    if |x| > 0 {
      WeightStep(top);
      LimbLead(x, top);
      LimbLead(y, top);
      UnitsOrder(x[0] + 1, y[0], Weight(top));
    } else {
      LimbZeros(x, top);
      LimbPositive(y, |y| - 1, top);
    }
  }

  // ----- Multiplication ---------------------------------------------------------------

  /** Sum over the limbs g[t..]: what the product rows from t on contribute. */
  ghost function Rows(d: seq<int>, g: seq<int>, t: nat, top: int): real
    requires t <= |g|
    decreases |g| - t
  {
    if t == |g| then 0.0 else Row(d, g[t], |d|, top - t) + Rows(d, g, t + 1, top)
  }

  /** One row: x times the last n limbs of d, where the first limb of d would land on limb exponent top. */
  ghost function Row(d: seq<int>, x: int, n: nat, top: int): real
    requires n <= |d|
  {
    if n == 0 then 0.0 else Units(x * d[|d| - n], Weight(top - (|d| - n))) + Row(d, x, n - 1, top)
  }

  /** Add g[t] * d into s; the row ends at index |d| + t and its last carry lands on index t. */
  method MultiplyRow(s: seq<int>, d: seq<int>, x: int, t: nat, ghost top: int) returns (r: seq<int>, carry: int)
    requires AreLimbs(s) && AreLimbs(d) && 0 <= x < LIMB_BASE && t + |d| < |s| && s[t] == 0
    ensures AreLimbs(r) && |r| == |s| && r[t] == carry && r[..t] == s[..t]
    ensures LimbValue(r, top) == LimbValue(s, top) + Row(d, x, |d|, top - t - 1)
  {
    hide Weight, Units, LimbValue, Row;
    r, carry := s, 0;
    var i := |d| + t;
    UnitsAdd(0, 0, Weight(top - i));
    NoRow(d, x, top - t - 1);
    while i > t
      invariant t <= i <= |d| + t && |r| == |s| && AreLimbs(r) && 0 <= carry < LIMB_BASE
      invariant forall k :: 0 <= k <= i ==> r[k] == s[k]
      invariant LimbValue(r, top) + Units(carry, Weight(top - i))
             == LimbValue(s, top) + Row(d, x, |d| + t - i, top - t - 1)
    {
      var y := d[i - t - 1];
      ProductBound(x, y);
      var u := r[i] + x * y + carry;
      assert u < SAFE_INTEGER && u / LIMB_BASE < INT32_LIMIT;
      LimbUpdate(r, i, u % LIMB_BASE, top);
      CarryStep(r[i], x * y, carry, u % LIMB_BASE, u / LIMB_BASE, top - i);
      RowStep(d, x, |d| + t - i, top - t - 1);
      assert top - t - 1 - (i - t - 1) == top - i && top - i + 1 == top - (i - 1);
      r, carry := r[i := u % LIMB_BASE], u / LIMB_BASE;
      i := i - 1;
    }
    LimbUpdate(r, t, (r[t] + carry) % LIMB_BASE, top);
    r := r[t := (r[t] + carry) % LIMB_BASE];
  }

  lemma NoRow(d: seq<int>, x: int, top: int)
    ensures Row(d, x, 0, top) == 0.0
  {
  }

  lemma RowStep(d: seq<int>, x: int, n: nat, top: int)
    requires n < |d|
    ensures Row(d, x, n + 1, top) == Units(x * d[|d| - n - 1], Weight(top - (|d| - n - 1))) + Row(d, x, n, top)
  {
    hide Weight, Units;
  }

  lemma ProductBound(x: int, y: int)
    requires 0 <= x < LIMB_BASE && 0 <= y < LIMB_BASE
    ensures 0 <= x * y <= 99999980000001
  {
    MulOrder(y, 9999999, x);
    MulOrder(x, 9999999, 9999999);
    MulOrder(0, y, x);
  }

  /** The schoolbook product; carry is the first limb, the carry out of the last row. */
  method MultiplyLimbs(d: seq<int>, g: seq<int>, ghost top: int) returns (s: seq<int>, carry: int)
    requires AreLimbs(d) && AreLimbs(g) && |g| > 0
    ensures AreLimbs(s) && |s| == |d| + |g| && carry == s[0]
    ensures LimbValue(s, top) == Rows(d, g, 0, top - 1)
  {
    hide Weight, Units;
    s, carry := Zeros(|d| + |g|), 0;
    LimbZeros(s, top);
    var t := |g|;
    while t > 0
      invariant 0 <= t <= |g| && |s| == |d| + |g| && AreLimbs(s)
      invariant forall k :: 0 <= k < t ==> s[k] == 0
      invariant t < |g| ==> carry == s[t]
      invariant LimbValue(s, top) == Rows(d, g, t, top - 1)
    {
      t := t - 1;
      ghost var before := s;
      s, carry := MultiplyRow(s, d, g[t], t, top);
      assert forall k :: 0 <= k < t ==> s[k] == s[..t][k] == before[k];
    }
  }

  /** A row is the product of its limb with the multiplicand. */
  lemma {:induction false} RowIsProduct(d: seq<int>, x: int, n: nat, td: int, tg: int)
    requires n <= |d|
    ensures Row(d, x, n, td + tg) == Product(LimbValue(d[|d| - n..], td - (|d| - n)), Units(x, Weight(tg)))
  {
    hide Weight, Units, Product;
    var rest, t := d[|d| - n..], td - (|d| - n);
    var u := Units(x, Weight(tg));
    ProductAdd(0.0, 0.0, u);
    if n > 0 {
      RowIsProduct(d, x, n - 1, td, tg);
      assert rest[1..] == d[|d| - (n - 1)..] && t - 1 == td - (|d| - (n - 1));
      ProductAdd(Units(rest[0], Weight(t)), LimbValue(rest[1..], t - 1), u);
      ProductUnits(rest[0], x, Weight(t), Weight(tg));
      WeightProduct(t, tg);
      assert t + tg == td + tg - (|d| - n) && rest[0] * x == x * d[|d| - n];
    }
  }

  /** All rows together are the product of the two values. */
  lemma {:induction false} RowsAreProduct(d: seq<int>, g: seq<int>, t: nat, td: int, tg: int)
    requires t <= |g|
    ensures Rows(d, g, t, td + tg) == Product(LimbValue(d, td), LimbValue(g[t..], tg - t))
    decreases |g| - t
  {
    hide Weight, Units, Product;
    var v := LimbValue(d, td);
    ProductAdd(0.0, 0.0, v);
    if t < |g| {
      RowsAreProduct(d, g, t + 1, td, tg);
      RowIsProduct(d, g[t], |d|, td, tg - t);
      assert d[|d| - |d|..] == d && g[t..][1..] == g[t + 1..];
      assert td + tg - t == td + (tg - t) && tg - (t + 1) == tg - t - 1;
      ProductAdd(Units(g[t], Weight(tg - t)), LimbValue(g[t + 1..], tg - t - 1), v);
    }
  }
}
