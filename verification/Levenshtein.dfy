/** The edit distance behind the "did you mean" hints, and the picker that uses it. */
module Levenshtein {
  import opened Basics

  // ----- Reference semantics ------------------------------------------------------

  function Min(x: int, y: int): int {
    if x < y then x else y
  }

  /** Textbook recursion: the distance between the first i characters of a and the first j of b. */
  function Dist(a: string, b: string, i: nat, j: nat): nat
    requires i <= |a| && j <= |b|
  {
    if i == 0 then j
    else if j == 0 then i
    else
      var replace := Dist(a, b, i - 1, j - 1) + if a[i - 1] == b[j - 1] then 0 else 1;
      Min(replace, Min(Dist(a, b, i - 1, j), Dist(a, b, i, j - 1)) + 1)
  }

  function EditDistance(a: string, b: string): nat {
    Dist(a, b, |a|, |b|)
  }

  /** t arises from s by inserting, deleting or replacing at most one character. */
  ghost predicate OneEdit(s: string, t: string) {
    exists p, x, y, q :: EditAt(s, t, p, x, y, q)
  }

  ghost predicate EditAt(s: string, t: string, p: string, x: string, y: string, q: string) {
    |x| <= 1 && |y| <= 1 && s == p + x + q && t == p + y + q
  }

  /** A chain of strings, each one edit away from its predecessor. */
  ghost predicate EditPath(path: seq<string>, a: string, b: string) {
    && |path| > 0 && path[0] == a && path[|path| - 1] == b
    && forall k :: 0 <= k < |path| - 1 ==> OneEdit(path[k], path[k + 1])
  }

  // ----- Neighbouring cells --------------------------------------------------------

  /** The recursion, unfolded once. */
  lemma CellStep(a: string, b: string, i: nat, j: nat)
    requires i <= |a| && j <= |b|
    ensures i == 0 ==> Dist(a, b, i, j) == j
    ensures j == 0 ==> Dist(a, b, i, j) == i
    ensures i > 0 && j > 0 ==>
      Dist(a, b, i, j) == Min(Dist(a, b, i - 1, j - 1) + if a[i - 1] == b[j - 1] then 0 else 1,
                              Min(Dist(a, b, i - 1, j), Dist(a, b, i, j - 1)) + 1)
  {
  }

  /** Neighbouring cells of the table differ by at most one. */
  lemma {:induction false} Neighbours(a: string, b: string, i: nat, j: nat)
    requires i <= |a| && j <= |b|
    ensures i > 0 ==> -1 <= Dist(a, b, i, j) - Dist(a, b, i - 1, j) <= 1
    ensures j > 0 ==> -1 <= Dist(a, b, i, j) - Dist(a, b, i, j - 1) <= 1
    decreases i + j
  {
    if i > 0 && j > 0 {
      Neighbours(a, b, i - 1, j);
      Neighbours(a, b, i, j - 1);
    }
  }

  /** On equal characters the minimum is the diagonal cell. */
  lemma EqualLast(a: string, b: string, i: nat, j: nat)
    requires 0 < i <= |a| && 0 < j <= |b| && a[i - 1] == b[j - 1]
    ensures Dist(a, b, i, j) == Dist(a, b, i - 1, j - 1)
  {
    hide Dist;
    CellStep(a, b, i, j);
    Neighbours(a, b, i - 1, j);
    Neighbours(a, b, i, j - 1);
  }

  lemma {:induction false} Symmetric(a: string, b: string, i: nat, j: nat)
    requires i <= |a| && j <= |b|
    ensures Dist(a, b, i, j) == Dist(b, a, j, i)
    decreases i + j
  {
    hide Dist;
    CellStep(a, b, i, j);
    CellStep(b, a, j, i);
    if i > 0 && j > 0 {
      Symmetric(a, b, i - 1, j - 1);
      Symmetric(a, b, i - 1, j);
      Symmetric(a, b, i, j - 1);
    }
  }

  lemma {:induction false} LengthBounds(a: string, b: string, i: nat, j: nat)
    requires i <= |a| && j <= |b|
    ensures Dist(a, b, i, j) >= i - j && Dist(a, b, i, j) >= j - i
    decreases i + j
  {
    if i > 0 && j > 0 {
      LengthBounds(a, b, i - 1, j - 1);
      LengthBounds(a, b, i - 1, j);
      LengthBounds(a, b, i, j - 1);
    }
  }

  // ----- Trimming ------------------------------------------------------------------

  /** Only the compared prefixes matter. */
  lemma {:induction false} DistPrefix(a: string, b: string, a': string, b': string, i: nat, j: nat)
    requires i <= |a| && j <= |b| && i <= |a'| && j <= |b'|
    requires a[..i] == a'[..i] && b[..j] == b'[..j]
    ensures Dist(a, b, i, j) == Dist(a', b', i, j)
    decreases i + j
  {
    if i > 0 && j > 0 {
      assert a[i - 1] == a[..i][i - 1] == a'[i - 1];
      assert b[j - 1] == b[..j][j - 1] == b'[j - 1];
      assert a[..i - 1] == a[..i][..i - 1] == a'[..i - 1];
      assert b[..j - 1] == b[..j][..j - 1] == b'[..j - 1];
      DistPrefix(a, b, a', b', i - 1, j - 1);
      DistPrefix(a, b, a', b', i - 1, j);
      DistPrefix(a, b, a', b', i, j - 1);
    }
  }

  /** A shared first character does not count. */
  lemma {:induction false} TrimFirst(a: string, b: string, i: nat, j: nat)
    requires 0 < i <= |a| && 0 < j <= |b| && a[0] == b[0]
    ensures Dist(a, b, i, j) == Dist(a[1..], b[1..], i - 1, j - 1)
    decreases i + j
  {
    LengthBounds(a, b, i, j);
    if i > 1 { TrimFirst(a, b, i - 1, j); }
    if j > 1 { TrimFirst(a, b, i, j - 1); }
    if i > 1 && j > 1 { TrimFirst(a, b, i - 1, j - 1); }
  }

  lemma {:induction false} TrimPrefix(p: string, a: string, b: string)
    ensures EditDistance(p + a, p + b) == EditDistance(a, b)
  {
    if p == [] {
      assert p + a == a && p + b == b;
    } else {
      TrimFirst(p + a, p + b, |p + a|, |p + b|);
      assert (p + a)[1..] == p[1..] + a && (p + b)[1..] == p[1..] + b;
      TrimPrefix(p[1..], a, b);
    }
  }

  lemma {:induction false} TrimSuffix(a: string, b: string, q: string)
    ensures EditDistance(a + q, b + q) == EditDistance(a, b)
  {
    if q == [] {
      assert a + q == a && b + q == b;
    } else {
      hide Dist;
      var n := |q| - 1;
      EqualLast(a + q, b + q, |a + q|, |b + q|);
      assert (a + q)[..|a| + n] == a + q[..n] && (b + q)[..|b| + n] == b + q[..n];
      DistPrefix(a + q, b + q, a + q[..n], b + q[..n], |a| + n, |b| + n);
      TrimSuffix(a, b, q[..n]);
    }
  }

  // ----- The code ------------------------------------------------------------------

  /** The next cell from its left, diagonal and upper neighbours. */
  function Cell(left: int, diagonal: int, up: int, x: int, y: int): int {
    if left < diagonal || up < diagonal then
      if left > up then up + 1 else left + 1
    else if x == y then diagonal
    else diagonal + 1
  }

  /** The branches of Cell compute the textbook minimum. */
  lemma CellIsDist(a: string, b: string, i: nat, j: nat)
    requires i < |a| && j < |b|
    ensures Cell(Dist(a, b, i + 1, j), Dist(a, b, i, j), Dist(a, b, i, j + 1), b[j] as int, a[i] as int)
         == Dist(a, b, i + 1, j + 1)
  {
  }

  /** Column j of the table, one cell per prefix of a. */
  ghost function Column(a: string, b: string, j: nat): (column: seq<int>)
    requires j <= |b|
    ensures |column| == |a| + 1 && forall i :: 0 <= i <= |a| ==> column[i] == Dist(a, b, i, j)
  {
    seq(|a| + 1, i requires 0 <= i <= |a| => Dist(a, b, i, j))
  }

  ghost predicate NextColumn(a: string, code: int, left: seq<int>, column: seq<int>) {
    && |left| == |column| == |a| + 1
    && column[0] == left[0] + 1
    && forall i :: 0 <= i < |a| ==> column[i + 1] == Cell(left[i + 1], left[i], column[i], code, a[i] as int)
  }

  lemma ColumnsAreNext(a: string, b: string, j: nat)
    requires j < |b|
    ensures NextColumn(a, b[j] as int, Column(a, b, j), Column(a, b, j + 1))
  {
    forall i | 0 <= i < |a|
      ensures Column(a, b, j + 1)[i + 1]
           == Cell(Column(a, b, j)[i + 1], Column(a, b, j)[i], Column(a, b, j + 1)[i], b[j] as int, a[i] as int)
    {
      CellIsDist(a, b, i, j);
    }
  }

  /** The row array interleaves the cells of a column (but for its first) with the codes of a's characters. */
  ghost predicate RowHolds(row: array<int>, a: string, column: seq<int>, from: nat, to: nat)
    reads row
    requires row.Length == 2 * |a| && to <= |a| && |column| == |a| + 1
  {
    forall x :: from <= x < to ==> row[2 * x] == column[x + 1]
  }

  ghost predicate CodesHold(row: array<int>, a: string)
    reads row
    requires row.Length == 2 * |a|
  {
    forall x :: 0 <= x < |a| ==> row[2 * x + 1] == a[x] as int
  }

  /** First column: the distance of every prefix of a to the empty string. */
  method InitRow(a: string, ghost b: string) returns (row: array<int>)
    ensures fresh(row) && row.Length == 2 * |a|
    ensures CodesHold(row, a) && RowHolds(row, a, Column(a, b, 0), 0, |a|)
  {
    row := new int[2 * |a|];
    var l := 0;
    while l < |a|
      invariant 0 <= l <= |a|
      invariant forall x :: 0 <= x < l ==> row[2 * x] == x + 1 && row[2 * x + 1] == a[x] as int
    {
      row[2 * l] := l + 1;
      row[2 * l + 1] := a[l] as int;
      l := l + 1;
    }
  }

  /** One pass over the row advances it by four columns, keeping a diagonal of cells in locals. */
  method FourColumns(a: string, b: string, row: array<int>, j: nat, ghost k0: seq<int>,
                     ghost k1: seq<int>, ghost k2: seq<int>, ghost k3: seq<int>, ghost k4: seq<int>)
    returns (last: int)
    requires row.Length == 2 * |a| && |a| > 0 && j + 4 <= |b|
    requires NextColumn(a, b[j] as int, k0, k1) && NextColumn(a, b[j + 1] as int, k1, k2)
    requires NextColumn(a, b[j + 2] as int, k2, k3) && NextColumn(a, b[j + 3] as int, k3, k4)
    requires k0[0] == j && CodesHold(row, a) && RowHolds(row, a, k0, 0, |a|)
    modifies row
    ensures CodesHold(row, a) && RowHolds(row, a, k4, 0, |a|) && last == k4[|a|]
  {
    var c0, c1, c2, c3 := b[j] as int, b[j + 1] as int, b[j + 2] as int, b[j + 3] as int;
    var d0, d1, d2, d3, d4 := j, j + 1, j + 2, j + 3, j + 4;
    var x := 0;
    while x < |a|
      invariant 0 <= x <= |a|
      invariant CodesHold(row, a) && RowHolds(row, a, k4, 0, x) && RowHolds(row, a, k0, x, |a|)
      invariant d0 == k0[x] && d1 == k1[x] && d2 == k2[x] && d3 == k3[x] && d4 == k4[x]
    {
      var left, code := row[2 * x], row[2 * x + 1];
      d0 := Cell(left, d0, d1, c0, code);
      d1 := Cell(d0, d1, d2, c1, code);
      d2 := Cell(d1, d2, d3, c2, code);
      d4 := Cell(d2, d3, d4, c3, code);
      row[2 * x] := d4;
      d3, d2, d1, d0 := d2, d1, d0, left;
      x := x + 1;
    }
    last := d4;
  }

  /** One pass over the row advances it by a single column. */
  method OneColumn(a: string, b: string, row: array<int>, j: nat, ghost k0: seq<int>, ghost k1: seq<int>)
    returns (last: int)
    requires row.Length == 2 * |a| && |a| > 0 && j < |b|
    requires NextColumn(a, b[j] as int, k0, k1)
    requires k0[0] == j && CodesHold(row, a) && RowHolds(row, a, k0, 0, |a|)
    modifies row
    ensures CodesHold(row, a) && RowHolds(row, a, k1, 0, |a|) && last == k1[|a|]
  {
    var code := b[j] as int;
    var d0 := j;
    last := j + 1;
    var x := 0;
    while x < |a|
      invariant 0 <= x <= |a|
      invariant CodesHold(row, a) && RowHolds(row, a, k1, 0, x) && RowHolds(row, a, k0, x, |a|)
      invariant d0 == k0[x] && last == k1[x]
    {
      var left := row[2 * x];
      last := Cell(left, d0, last, code, row[2 * x + 1]);
      row[2 * x] := last;
      d0 := left;
      x := x + 1;
    }
  }

  /** Both strings differ in their first and in their last character and b is short: no table needed. */
  lemma ShortDistance(a: string, b: string)
    requires 0 < |a| <= |b| < 3 && a[0] != b[0] && a[|a| - 1] != b[|b| - 1]
    ensures EditDistance(a, b) == |b|
  {
    assert Dist(a, b, 1, 1) == 1;
    if |a| == 1 && |b| == 2 {
      assert Dist(a, b, 1, 2) == 2;
    } else if |a| == 2 {
      assert Dist(a, b, 1, 2) >= 1 && Dist(a, b, 2, 1) >= 1;
    }
  }

  /** The two strings after swapping, and after dropping the shared suffix and then the shared prefix. */
  method Trim(t: string, r: string) returns (a: string, b: string)
    requires |t| <= |r|
    ensures |a| <= |b| && EditDistance(a, b) == EditDistance(t, r)
    ensures |a| > 0 ==> a[0] != b[0] && a[|a| - 1] != b[|b| - 1]
  {
    hide EditDistance;
    var i, o := |t|, |r|;
    while i > 0 && t[i - 1] == r[o - 1]
      invariant 0 <= i <= |t| && o - i == |r| - |t| && t[i..] == r[o..]
    {
      i, o := i - 1, o - 1;
      assert t[i..] == [t[i]] + t[i + 1..] && r[o..] == [r[o]] + r[o + 1..];
    }
    assert t == t[..i] + t[i..] && r == r[..o] + t[i..];
    TrimSuffix(t[..i], r[..o], t[i..]);
    var s := 0;
    while s < i && t[s] == r[s]
      invariant 0 <= s <= i && t[..s] == r[..s]
    {
      s := s + 1;
    }
    a, b := t[s..i], r[s..o];
    assert t[..i] == t[..s] + a && r[..o] == t[..s] + b;
    TrimPrefix(t[..s], a, b);
  }

  /** The exported distance function: affix trimming, early exits, then four columns at a time. */
  method Levenshtein(t: string, r: string) returns (distance: nat)
    ensures distance == EditDistance(t, r)
  {
    if t == r {
      TrimPrefix(t, [], []);
      assert t + [] == t;
      return 0;
    }
    var first, second := t, r;
    if |t| > |r| {
      Symmetric(t, r, |t|, |r|);
      first, second := r, t;
    }
    var a, b := Trim(first, second);
    if |a| == 0 || |b| < 3 {
      if |a| > 0 { ShortDistance(a, b); }
      return |b|;
    }
    var row := InitRow(a, b);
    var j, last := 0, 0;
    while j < |b| - 3
      invariant 0 <= j <= |b| && CodesHold(row, a) && RowHolds(row, a, Column(a, b, j), 0, |a|)
      invariant j > 0 ==> last == EditDistance(a, b[..j])
    {
      ColumnsAreNext(a, b, j);
      ColumnsAreNext(a, b, j + 1);
      ColumnsAreNext(a, b, j + 2);
      ColumnsAreNext(a, b, j + 3);
      last := FourColumns(a, b, row, j, Column(a, b, j), Column(a, b, j + 1),
                          Column(a, b, j + 2), Column(a, b, j + 3), Column(a, b, j + 4));
      j := j + 4;
      DistPrefix(a, b, a, b[..j], |a|, j);
    }
    while j < |b|
      invariant 0 <= j <= |b| && CodesHold(row, a) && RowHolds(row, a, Column(a, b, j), 0, |a|)
      invariant j > 0 ==> last == EditDistance(a, b[..j])
    {
      ColumnsAreNext(a, b, j);
      last := OneColumn(a, b, row, j, Column(a, b, j), Column(a, b, j + 1));
      j := j + 1;
      DistPrefix(a, b, a, b[..j], |a|, j);
    }
    assert b[..j] == b;
    distance := last;
  }

  const MAX_HINT_DISTANCE := 3

  /** candidates[k] is the first candidate of least distance to word, and that distance is at most 3. */
  ghost predicate IsBestHint(word: string, candidates: seq<string>, k: nat) {
    && k < |candidates| && EditDistance(word, candidates[k]) <= 3
    && (forall i :: 0 <= i < |candidates| ==> EditDistance(word, candidates[k]) <= EditDistance(word, candidates[i]))
    && (forall i :: 0 <= i < k ==> EditDistance(word, candidates[k]) < EditDistance(word, candidates[i]))
  }

  /** The suggestion for a misspelt argument, if any candidate is close enough. */
  method PickHint(word: string, candidates: seq<string>) returns (hint: Option<string>)
    ensures hint == None <==>
      forall i :: 0 <= i < |candidates| ==> EditDistance(word, candidates[i]) > 3
    ensures hint.Some? ==> exists k: nat :: IsBestHint(word, candidates, k) && hint.value == candidates[k]
  {
    hint := None;
    var best := -1;  // -1 stands for infinity
    ghost var k: nat := 0;
    var i := 0;
    while i < |candidates|
      invariant 0 <= i <= |candidates|
      invariant hint == None <==> best == -1
      invariant best == -1 ==> forall m :: 0 <= m < i ==> EditDistance(word, candidates[m]) > MAX_HINT_DISTANCE
      invariant best != -1 ==> k < i && IsBestHint(word, candidates[..i], k) && hint == Some(candidates[k])
      invariant best != -1 ==> best == EditDistance(word, candidates[k])
    {
      var distance := Levenshtein(word, candidates[i]);
      if !(distance > MAX_HINT_DISTANCE) && (best == -1 || distance < best) {
        best, hint, k := distance, Some(candidates[i]), i;
      }
      i := i + 1;
    }
    assert candidates[..i] == candidates;
  }

  // ----- The distance is the length of a shortest chain of edits ---------------------

  lemma {:induction false} DistAfterEdit(a: string, s: string, t: string, p: string, x: string, y: string, q: string)
    requires EditAt(s, t, p, x, y, q)
    ensures EditDistance(a, t) <= EditDistance(a, s) + 1
    decreases |a| + |q|
  {
    var n := |q| - 1;
    if a == [] {
    } else if q == [] {
      assert s == p + x && t == p + y && p + [] == p;
      DistAppend(a, p, x);
      DistAppend(a, p, y);
      if |x| == 1 && |y| == 1 {
        DistAfterEditLast(a, s, t, p, x, y);
      }
    } else {
      var a', s', t' := a[..|a| - 1], p + x + q[..n], p + y + q[..n];
      assert s[..|s| - 1] == s' && t[..|t| - 1] == t' && s[|s| - 1] == t[|t| - 1] == q[n];
      DistAfterEdit(a', s', t', p, x, y, q[..n]);
      DistAfterEdit(a', s, t, p, x, y, q);
      DistAfterEdit(a, s', t', p, x, y, q[..n]);
      DistStep(a, s);
      DistStep(a, t);
    }
  }

  /** The textbook step on whole strings. */
  lemma DistStep(a: string, s: string)
    requires |a| > 0 && |s| > 0
    ensures var a', s' := a[..|a| - 1], s[..|s| - 1];
            EditDistance(a, s) == Min(EditDistance(a', s') + if a[|a| - 1] == s[|s| - 1] then 0 else 1,
                                      Min(EditDistance(a', s), EditDistance(a, s')) + 1)
  {
    hide Dist;
    var a', s' := a[..|a| - 1], s[..|s| - 1];
    DistPrefix(a, s, a', s', |a'|, |s'|);
    DistPrefix(a, s, a', s, |a'|, |s|);
    DistPrefix(a, s, a, s', |a|, |s'|);
    CellStep(a, s, |a|, |s|);
  }

  lemma DistAppend(a: string, p: string, x: string)
    requires |x| <= 1
    ensures -1 <= EditDistance(a, p + x) - EditDistance(a, p) <= 1
  {
    if |x| == 1 {
      Neighbours(a, p + x, |a|, |p + x|);
      assert (p + x)[..|p|] == p;
      DistPrefix(a, p + x, a, p, |a|, |p|);
    } else {
      assert p + x == p;
    }
  }

  lemma DistAfterEditLast(a: string, s: string, t: string, p: string, x: string, y: string)
    requires |x| == 1 && |y| == 1 && s == p + x && t == p + y
    ensures EditDistance(a, t) <= EditDistance(a, s) + 1
    decreases |a|
  {
    if a != [] {
      var a' := a[..|a| - 1];
      DistStep(a, s);
      DistStep(a, t);
      assert s[..|s| - 1] == p && t[..|t| - 1] == p;
      DistAfterEditLast(a', s, t, p, x, y);
    }
  }

  /** No chain of edits from a to b is shorter than the distance. */
  lemma {:induction false} PathIsNoShorter(path: seq<string>, a: string, b: string)
    requires EditPath(path, a, b)
    ensures EditDistance(a, b) <= |path| - 1
  {
    if |path| == 1 {
      TrimPrefix(a, [], []);
      assert a + [] == a;
    } else {
      var n := |path| - 2;
      assert EditPath(path[..n + 1], a, path[n]);
      PathIsNoShorter(path[..n + 1], a, path[n]);
      assert OneEdit(path[n], path[n + 1]);
      var p, x, y, q :| EditAt(path[n], path[n + 1], p, x, y, q);
      DistAfterEdit(a, path[n], b, p, x, y, q);
    }
  }

  /** Prefixing an edit to a chain, and appending the same text to every string of a chain. */
  lemma PathCons(s: string, path: seq<string>, a: string, b: string, p: string, x: string, y: string, q: string)
    requires EditPath(path, a, b) && EditAt(s, a, p, x, y, q)
    ensures EditPath([s] + path, s, b)
  {
    assert OneEdit(s, a);
    assert forall k :: 0 < k <= |path| ==> ([s] + path)[k] == path[k - 1];
  }

  lemma PathAppend(path: seq<string>, a: string, b: string, z: string) returns (longer: seq<string>)
    requires EditPath(path, a, b)
    ensures EditPath(longer, a + z, b + z) && |longer| == |path|
  {
    longer := seq(|path|, k requires 0 <= k < |path| => path[k] + z);
    forall k | 0 <= k < |path| - 1 ensures OneEdit(longer[k], longer[k + 1]) {
      assert OneEdit(path[k], path[k + 1]);
      var p, x, y, q :| EditAt(path[k], path[k + 1], p, x, y, q);
      assert EditAt(longer[k], longer[k + 1], p, x, y, q + z);
    }
  }

  /** Some chain of edits has exactly the length of the distance. */
  lemma {:induction false} ShortestPath(a: string, b: string) returns (path: seq<string>)
    ensures EditPath(path, a, b) && |path| - 1 == EditDistance(a, b)
    decreases |a| + |b|
  {
    if a == [] && b == [] {
      path := [a];
    } else if b == [] || (a != [] && EditDistance(a, b) == EditDistance(a[..|a| - 1], b) + 1) {
      var a', x := a[..|a| - 1], a[|a| - 1..];
      if b == [] { assert EditDistance(a', b) == |a| - 1; }
      path := ShortestPath(a', b);
      assert EditAt(a, a', a', x, [], []);
      PathCons(a, path, a', b, a', x, [], []);
      path := [a] + path;
    } else if a == [] || EditDistance(a, b) == EditDistance(a, b[..|b| - 1]) + 1 {
      var b', y := b[..|b| - 1], b[|b| - 1..];
      path := ShortestPath(a, b');
      path := PathExtend(path, a, b', b, b', [], y);
    } else {
      DistStep(a, b);
      var a', b', x, y := a[..|a| - 1], b[..|b| - 1], a[|a| - 1..], b[|b| - 1..];
      path := ShortestPath(a', b');
      path := PathAppend(path, a', b', x);
      assert a' + x == a && b' + y == b;
      if x != y {
        path := PathExtend(path, a, b' + x, b, b', x, y);
      }
    }
  }

  lemma PathExtend(path: seq<string>, a: string, s: string, t: string, p: string, x: string, y: string)
    returns (longer: seq<string>)
    requires EditPath(path, a, s) && s == p + x && t == p + y && |x| <= 1 && |y| <= 1
    ensures EditPath(longer, a, t) && |longer| == |path| + 1
  {
    longer := path + [t];
    assert EditAt(s, t, p, x, y, []);
    assert OneEdit(s, t);
  }
}
