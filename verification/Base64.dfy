/** The base64 codec (section 4 of RFC 4648) and the second, independent encoder. */
module Base64 {
  import opened Basics

  // ----- Bit operations on small non-negative integers ---------------------------------

  function Pow2(k: nat): (p: nat)
    ensures p > 0
  {
    if k == 0 then 1 else 2 * Pow2(k - 1)
  }

  function And(x: nat, y: nat): nat {
    if x == 0 || y == 0 then 0 else 2 * And(x / 2, y / 2) + if x % 2 == 1 && y % 2 == 1 then 1 else 0
  }

  function Or(x: nat, y: nat): nat {
    if x == 0 then y else if y == 0 then x else 2 * Or(x / 2, y / 2) + if x % 2 == 1 || y % 2 == 1 then 1 else 0
  }

  function Shl(x: nat, k: nat): nat {
    x * Pow2(k)
  }

  function Shr(x: nat, k: nat): nat {
    if k == 0 then x else Shr(x / 2, k - 1)
  }

  lemma {:induction false} AndLowMask(x: nat, k: nat)
    ensures And(x, Pow2(k) - 1) == x - Shl(Shr(x, k), k)
  {
    if k > 0 {
      AndLowMask(x / 2, k - 1);
      assert (Pow2(k) - 1) / 2 == Pow2(k - 1) - 1 && (Pow2(k) - 1) % 2 == 1;
      assert Shl(Shr(x, k), k) == 2 * Shl(Shr(x / 2, k - 1), k - 1) by { TwiceShift(Shr(x, k), Pow2(k - 1)); }
    }
  }

  lemma TwiceShift(x: nat, p: nat)
    ensures x * (2 * p) == 2 * (x * p)
  {
  }

  lemma {:induction false} AndHighMask(x: nat, y: nat, k: nat)
    ensures And(x, Shl(y, k)) == Shl(And(Shr(x, k), y), k)
  {
    if k > 0 {
      AndHighMask(x / 2, y, k - 1);
      TwiceShift(y, Pow2(k - 1));
      TwiceShift(And(Shr(x, k), y), Pow2(k - 1));
      AndEven(x, Shl(y, k - 1));
    }
  }

  lemma {:induction false} AndEven(x: nat, y: nat)
    ensures And(x, 2 * y) == 2 * And(x / 2, y)
  {
    assert 2 * y / 2 == y && 2 * y % 2 == 0;
  }

  lemma {:induction false} OrDisjoint(x: nat, k: nat, y: nat)
    requires y < Pow2(k)
    ensures Or(Shl(x, k), y) == Shl(x, k) + y
  {
    if k > 0 {
      OrDisjoint(x, k - 1, y / 2);
      TwiceShift(x, Pow2(k - 1));
      OrEven(Shl(x, k - 1), y);
    }
  }

  lemma OrEven(x: nat, y: nat)
    ensures Or(2 * x, y) == 2 * Or(x, y / 2) + y % 2
  {
  }

  /** The shifts and masks that the codec uses, as arithmetic. */
  lemma Shifts(x: nat)
    ensures Shr(x, 2) == x / 4 && Shr(x, 4) == x / 16 && Shr(x, 6) == x / 64 && Shr(x, 8) == x / 256
    ensures Shr(x, 10) == x / 1024 && Shr(x, 12) == x / 4096 && Shr(x, 16) == x / 65536 && Shr(x, 18) == x / 262144
    ensures Shl(x, 2) == x * 4 && Shl(x, 4) == x * 16 && Shl(x, 6) == x * 64 && Shl(x, 8) == x * 256
    ensures Shl(x, 10) == x * 1024 && Shl(x, 12) == x * 4096 && Shl(x, 16) == x * 65536 && Shl(x, 18) == x * 262144
  {
    ShrChain(x, 2); ShrChain(x, 4); ShrChain(x, 6); ShrChain(x, 8);
    ShrChain(x, 10); ShrChain(x, 12); ShrChain(x, 16); ShrChain(x, 18);
    Powers();
  }

  lemma {:induction false} ShrChain(x: nat, k: nat)
    ensures Pow2(k) > 0 && Shr(x, k) == x / Pow2(k)
  {
    if k > 0 {
      ShrChain(x / 2, k - 1);
      DivDiv(x, Pow2(k - 1));
    }
  }

  lemma DivDiv(x: nat, p: nat)
    requires p > 0
    ensures x / 2 / p == x / (2 * p)
  {
    var q := x / (2 * p);
    var r := x % (2 * p);
    assert x == 2 * (q * p) + r;
    assert x / 2 == q * p + r / 2;
    DivModUnique(x / 2, p, q, r / 2);
  }

  lemma Powers()
    ensures Pow2(2) == 4 && Pow2(4) == 16 && Pow2(6) == 64 && Pow2(8) == 256
    ensures Pow2(10) == 1024 && Pow2(12) == 4096 && Pow2(16) == 65536 && Pow2(18) == 262144
  {
    assert Pow2(4) == 16;
    assert Pow2(8) == 256;
    assert Pow2(12) == 4096;
    assert Pow2(16) == 65536;
  }

  lemma Masks(x: nat)
    ensures And(x, 63) == x % 64 && And(x, 255) == x % 256
    ensures And(x, 3) == x % 4 && And(x, 15) == x % 16
  {
    hide And, Shr, Shl, Pow2;
    Powers();
    Shifts(x);
    Shifts(x / 64); Shifts(x / 256); Shifts(x / 4); Shifts(x / 16);
    AndLowMask(x, 6); AndLowMask(x, 8); AndLowMask(x, 2); AndLowMask(x, 4);
  }

  // ----- The alphabet ----------------------------------------------------------------------

  function Run(first: char, n: nat): (r: string)
    requires first as int + n <= 128
    ensures |r| == n && forall k :: 0 <= k < n ==> r[k] == first + k as char
  {
    seq(n, k requires 0 <= k < n => first + k as char)
  }

  const ALPHABET: string := Run('A', 26) + Run('a', 26) + Run('0', 10) + "+/"

  lemma UpperCase()
    ensures Run('A', 26) == "ABCDEFGHIJKLMNOPQRSTUVWXYZ"
  {
  }

  lemma LowerCase()
    ensures Run('a', 26) == "abcdefghijklmnopqrstuvwxyz"
  {
  }

  lemma Numerals()
    ensures Run('0', 10) == "0123456789"
  {
  }

  lemma AlphabetLiteral()
    ensures ALPHABET == "ABCDEFGHIJKLMNOPQRSTUVWXYZ" + "abcdefghijklmnopqrstuvwxyz" + "0123456789" + "+/"
  {
    hide Run;
    UpperCase();
    LowerCase();
    Numerals();
  }

  function Symbol(n: int): char
    requires 0 <= n < 64
  {
    ALPHABET[n]
  }

  /** The reverse table: also reads the URL-safe '-' and '_'; anything else counts as zero. */
  function Lookup(c: char): (n: nat)
    ensures n < 64
  {
    if 'A' <= c <= 'Z' then (c - 'A') as int
    else if 'a' <= c <= 'z' then (c - 'a') as int + 26
    else if '0' <= c <= '9' then (c - '0') as int + 52
    else if c == '+' || c == '-' then 62
    else if c == '/' || c == '_' then 63
    else 0
  }

  lemma SymbolShape(n: int)
    requires 0 <= n < 64
    ensures Lookup(Symbol(n)) == n && Symbol(n) != '='
  {
  }

  // ----- Reference: groups of three bytes, four sextets -----------------------------------------

  /** The sextets of a full group of three bytes. */
  function Quad(a: byte, b: byte, c: byte): (r: string)
    ensures |r| == 4
  {
    [Symbol(a / 4), Symbol(a % 4 * 16 + b / 16), Symbol(b % 16 * 4 + c / 64), Symbol(c % 64)]
  }

  function Tail(b: seq<byte>): string
    requires |b| < 3
  {
    if |b| == 0 then ""
    else if |b| == 1 then [Symbol(b[0] / 4), Symbol(b[0] % 4 * 16), '=', '=']
    else [Symbol(b[0] / 4), Symbol(b[0] % 4 * 16 + b[1] / 16), Symbol(b[1] % 16 * 4), '=']
  }

  /** The first k full groups. */
  function Quads(b: seq<byte>, k: nat): (r: string)
    requires 3 * k <= |b|
    ensures |r| == 4 * k
  {
    if k == 0 then "" else Quads(b, k - 1) + Quad(b[3 * k - 3], b[3 * k - 2], b[3 * k - 1])
  }

  function Encode(b: seq<byte>): string {
    Quads(b, |b| / 3) + Tail(b[|b| / 3 * 3..])
  }

  // ----- The reference, bit by bit ----------------------------------------------------------------

  /** The w lowest bits of x, most significant first. */
  function Bits(x: nat, w: nat): (r: seq<bool>)
    ensures |r| == w
  {
    if w == 0 then [] else Bits(x / 2, w - 1) + [x % 2 == 1]
  }

  function ByteBits(b: seq<byte>): seq<bool> {
    if b == [] then [] else ByteBits(b[..|b| - 1]) + Bits(b[|b| - 1], 8)
  }

  /** The bits that the symbols of a text stand for; padding stands for none. */
  function SymbolBits(s: string): seq<bool> {
    if s == "" then []
    else SymbolBits(s[..|s| - 1]) + if s[|s| - 1] == '=' then [] else Bits(Lookup(s[|s| - 1]), 6)
  }

  lemma {:induction false} BitsSplit(x: nat, w: nat, y: nat, k: nat)
    requires y < Pow2(k)
    ensures Bits(x * Pow2(k) + y, w + k) == Bits(x, w) + Bits(y, k)
  {
    if k > 0 {
      BitsSplit(x, w, y / 2, k - 1);
      TwiceShift(x, Pow2(k - 1));
      assert (x * Pow2(k) + y) / 2 == x * Pow2(k - 1) + y / 2;
      assert (x * Pow2(k) + y) % 2 == y % 2;
    } else {
      assert Bits(y, 0) == [];
      assert Bits(x, w) + [] == Bits(x, w);
    }
  }

  lemma {:induction false} SymbolBitsAppend(s: string, t: string)
    ensures SymbolBits(s + t) == SymbolBits(s) + SymbolBits(t)
  {
    hide Bits, Lookup;
    if t == "" {
      assert s + t == s;
    } else {
      assert (s + t)[..|s + t| - 1] == s + t[..|t| - 1];
      SymbolBitsAppend(s, t[..|t| - 1]);
    }
  }

  lemma {:induction false} ByteBitsAppend(a: seq<byte>, b: seq<byte>)
    ensures ByteBits(a + b) == ByteBits(a) + ByteBits(b)
  {
    hide Bits;
    if b == [] {
      assert a + b == a;
    } else {
      assert (a + b)[..|a + b| - 1] == a + b[..|b| - 1];
      ByteBitsAppend(a, b[..|b| - 1]);
    }
  }

  lemma ByteSplit(x: byte)
    ensures Bits(x, 8) == Bits(x / 4, 6) + Bits(x % 4, 2)
    ensures Bits(x, 8) == Bits(x / 16, 4) + Bits(x % 16, 4)
    ensures Bits(x, 8) == Bits(x / 64, 2) + Bits(x % 64, 6)
  {
    hide Bits, Pow2;
    Powers();
    BitsSplit(x / 4, 6, x % 4, 2);
    BitsSplit(x / 16, 4, x % 16, 4);
    BitsSplit(x / 64, 2, x % 64, 6);
  }

  lemma SextetJoin(x: nat, y: nat)
    ensures y < 16 ==> Bits(x * 16 + y, 6) == Bits(x, 2) + Bits(y, 4)
    ensures y < 4 ==> Bits(x * 4 + y, 6) == Bits(x, 4) + Bits(y, 2)
  {
    hide Bits, Pow2;
    Powers();
    if y < 16 { BitsSplit(x, 2, y, 4); }
    if y < 4 { BitsSplit(x, 4, y, 2); }
  }

  lemma OneSymbol(n: int)
    requires 0 <= n < 64
    ensures SymbolBits([Symbol(n)]) == Bits(n, 6)
  {
    SymbolShape(n);
    assert [Symbol(n)][..0] == "";
  }

  lemma QuadBits(a: byte, b: byte, c: byte)
    ensures SymbolBits(Quad(a, b, c)) == ByteBits([a, b, c])
  {
    hide Bits, Symbol, SymbolBits, ByteBits;
    var p, q, r, t := Symbol(a / 4), Symbol(a % 4 * 16 + b / 16), Symbol(b % 16 * 4 + c / 64), Symbol(c % 64);
    OneSymbol(a / 4);
    OneSymbol(a % 4 * 16 + b / 16);
    OneSymbol(b % 16 * 4 + c / 64);
    OneSymbol(c % 64);
    SymbolBitsAppend([p], [q]);
    SymbolBitsAppend([p] + [q], [r]);
    SymbolBitsAppend([p] + [q] + [r], [t]);
    assert Quad(a, b, c) == [p] + [q] + [r] + [t];
    ByteSplit(a);
    ByteSplit(b);
    ByteSplit(c);
    SextetJoin(a % 4, b / 16);
    SextetJoin(b % 16, c / 64);
    OneByte(a);
    OneByte(b);
    OneByte(c);
    ByteBitsAppend([a], [b]);
    ByteBitsAppend([a] + [b], [c]);
    assert [a, b, c] == [a] + [b] + [c];
  }

  lemma OneByte(a: byte)
    ensures ByteBits([a]) == Bits(a, 8)
  {
    assert [a][..0] == [];
  }

  lemma {:induction false} QuadsBits(b: seq<byte>, k: nat)
    requires 3 * k <= |b|
    ensures SymbolBits(Quads(b, k)) == ByteBits(b[..3 * k])
  {
    hide Bits, Quad, SymbolBits, ByteBits;
    EmptyBits();
    if k > 0 {
      QuadsBits(b, k - 1);
      var group := [b[3 * k - 3], b[3 * k - 2], b[3 * k - 1]];
      QuadBits(group[0], group[1], group[2]);
      SymbolBitsAppend(Quads(b, k - 1), Quad(group[0], group[1], group[2]));
      ByteBitsAppend(b[..3 * (k - 1)], group);
      assert b[..3 * k] == b[..3 * (k - 1)] + group;
    }
  }

  function PaddingBits(n: nat): nat {
    if n % 3 == 0 then 0 else if n % 3 == 1 then 4 else 2
  }

  lemma TailBits(b: seq<byte>)
    requires |b| < 3
    ensures SymbolBits(Tail(b)) == ByteBits(b) + Bits(0, PaddingBits(|b|))
  {
    hide Bits, Symbol, SymbolBits, ByteBits, Tail;
    if |b| == 0 {
      assert b == [];
      EmptyBits();
      NoTail();
    } else if |b| == 1 {
      assert b == [b[0]];
      SingleTailBits(b[0]);
    } else {
      assert b == [b[0], b[1]];
      DoubleTailBits(b[0], b[1]);
    }
  }

  lemma NoTail()
    ensures Tail([]) == ""
  {
  }

  lemma SingleTailBits(x: byte)
    ensures SymbolBits(Tail([x])) == ByteBits([x]) + Bits(0, 4)
  {
    hide Bits, Symbol, SymbolBits, ByteBits;
    OneByte(x);
    ByteSplit(x);
    SextetJoin(x % 4, 0);
    PaddedBits(x / 4, x % 4 * 16);
  }

  lemma DoubleTailBits(x: byte, y: byte)
    ensures SymbolBits(Tail([x, y])) == ByteBits([x, y]) + Bits(0, 2)
  {
    hide Bits, Symbol, SymbolBits, ByteBits;
    OneByte(x);
    OneByte(y);
    ByteBitsAppend([x], [y]);
    assert [x, y] == [x] + [y];
    ByteSplit(x);
    ByteSplit(y);
    SextetJoin(x % 4, y / 16);
    SextetJoin(y % 16, 0);
    PaddedBits3(x / 4, x % 4 * 16 + y / 16, y % 16 * 4);
  }

  lemma EmptyBits()
    ensures Bits(0, 0) == [] && ByteBits([]) == [] && SymbolBits("") == [] && SymbolBits("=") == []
  {
    assert "="[..0] == "";
  }

  lemma PaddedBits(p: int, q: int)
    requires 0 <= p < 64 && 0 <= q < 64
    ensures SymbolBits([Symbol(p), Symbol(q), '=', '=']) == Bits(p, 6) + Bits(q, 6)
  {
    hide Bits, Symbol, SymbolBits;
    EmptyBits();
    OneSymbol(p);
    OneSymbol(q);
    SymbolBitsAppend([Symbol(p)], [Symbol(q)]);
    SymbolBitsAppend([Symbol(p)] + [Symbol(q)], "=");
    SymbolBitsAppend([Symbol(p)] + [Symbol(q)] + "=", "=");
    assert [Symbol(p), Symbol(q), '=', '='] == [Symbol(p)] + [Symbol(q)] + "=" + "=";
  }

  lemma PaddedBits3(p: int, q: int, r: int)
    requires 0 <= p < 64 && 0 <= q < 64 && 0 <= r < 64
    ensures SymbolBits([Symbol(p), Symbol(q), Symbol(r), '=']) == Bits(p, 6) + Bits(q, 6) + Bits(r, 6)
  {
    hide Bits, Symbol, SymbolBits;
    EmptyBits();
    OneSymbol(p);
    OneSymbol(q);
    OneSymbol(r);
    SymbolBitsAppend([Symbol(p)], [Symbol(q)]);
    SymbolBitsAppend([Symbol(p)] + [Symbol(q)], [Symbol(r)]);
    SymbolBitsAppend([Symbol(p)] + [Symbol(q)] + [Symbol(r)], "=");
    assert [Symbol(p), Symbol(q), Symbol(r), '='] == [Symbol(p)] + [Symbol(q)] + [Symbol(r)] + "=";
  }

  /** The text spells the bits of the bytes in order, filled up with zero bits to whole symbols. */
  lemma EncodesBits(b: seq<byte>)
    ensures SymbolBits(Encode(b)) == ByteBits(b) + Bits(0, PaddingBits(|b|))
    ensures |Encode(b)| == (|b| + 2) / 3 * 4
  {
    hide *;
    var k := |b| / 3;
    var rest := b[k * 3..];
    assert b == b[..3 * k] + rest && |rest| == |b| % 3;
    EncodeParts(b);
    SamePadding(|b|, |rest|);
    QuadsBits(b, k);
    TailBits(rest);
    SymbolBitsAppend(Quads(b, k), Tail(rest));
    ByteBitsAppend(b[..3 * k], rest);
    Regroup(ByteBits(b[..3 * k]), ByteBits(rest), Bits(0, PaddingBits(|b|)));
    TailLength(rest);
  }

  lemma EncodeParts(b: seq<byte>)
    ensures Encode(b) == Quads(b, |b| / 3) + Tail(b[|b| / 3 * 3..])
  {
  }

  lemma SamePadding(n: nat, m: nat)
    requires n % 3 == m == m % 3
    ensures PaddingBits(n) == PaddingBits(m)
  {
  }

  lemma Regroup(p: seq<bool>, q: seq<bool>, r: seq<bool>)
    ensures p + (q + r) == p + q + r
  {
  }

  lemma TailLength(b: seq<byte>)
    requires |b| < 3
    ensures |Tail(b)| == if |b| == 0 then 0 else 4
  {
  }

  // ----- fromByteArray --------------------------------------------------------------------------

  const CHUNK := 16383

  /** Four symbols of a 24-bit number, cut out by shifts and masks. */
  function ShiftedQuad(x: nat): string {
    Masks(Shr(x, 18)); Masks(Shr(x, 12)); Masks(Shr(x, 6)); Masks(x);
    [Symbol(And(Shr(x, 18), 63)), Symbol(And(Shr(x, 12), 63)), Symbol(And(Shr(x, 6), 63)), Symbol(And(x, 63))]
  }

  lemma ShiftedQuadIsQuad(a: byte, b: byte, c: byte, x: nat)
    requires x == a * 65536 + b * 256 + c
    ensures ShiftedQuad(x) == Quad(a, b, c)
  {
    hide Symbol, And, Shr;
    Masks(Shr(x, 18)); Masks(Shr(x, 12)); Masks(Shr(x, 6)); Masks(x);
    Shifts(x);
    GroupSextets(a, b, c);
  }

  /** A number below 2^24 is cut into its four base-64 digits. */
  lemma FourSextets(p: int, q: int, r: int, s: int, x: int)
    requires 0 <= p < 64 && 0 <= q < 64 && 0 <= r < 64 && 0 <= s < 64
    requires x == p * 262144 + q * 4096 + r * 64 + s
    ensures x / 262144 % 64 == p && x / 4096 % 64 == q && x / 64 % 64 == r && x % 64 == s
  {
    DivModUnique(x, 262144, p, q * 4096 + r * 64 + s);
    DivModUnique(x, 4096, p * 64 + q, r * 64 + s);
    DivModUnique(x, 64, p * 4096 + q * 64 + r, s);
  }

  /** The sextets of a group in terms of its bytes. */
  lemma GroupSextets(a: byte, b: byte, c: byte)
    ensures var x := a * 65536 + b * 256 + c;
      && x / 262144 % 64 == a / 4
      && x / 4096 % 64 == a % 4 * 16 + b / 16
      && x / 64 % 64 == b % 16 * 4 + c / 64
      && x % 64 == c % 64
  {
    FourSextets(a / 4, a % 4 * 16 + b / 16, b % 16 * 4 + c / 64, c % 64, a * 65536 + b * 256 + c);
  }

  lemma PairSextets(a: byte, b: byte)
    ensures var x := a * 256 + b;
      && x / 1024 % 64 == x / 1024 == a / 4
      && x / 16 % 64 == a % 4 * 16 + b / 16
      && x % 16 == b % 16 && x * 4 % 64 == b % 16 * 4
  {
    var x := a * 256 + b;
    DivModUnique(x, 1024, a / 4, a % 4 * 256 + b);
    DivModUnique(x, 16, a * 16 + b / 16, b % 16);
    DivModUnique(a * 16 + b / 16, 64, a / 4, a % 4 * 16 + b / 16);
    DivModUnique(x * 4, 64, a * 16 + b / 16, b % 16 * 4);
  }

  /** The byte masks of the first encoder keep the shifted bytes unchanged. */
  lemma MaskedBytes(a: byte, b: byte, c: byte)
    ensures And(Shl(a, 16), 16711680) == a * 65536 && And(Shl(b, 8), 65280) == b * 256 && And(c, 255) == c
  {
    hide And, Shr, Shl;
    Shifts(a); Shifts(b); Shifts(255);
    Masks(a); Masks(b); Masks(c);
    AndHighMask(Shl(a, 16), 255, 16);
    AndHighMask(Shl(b, 8), 255, 8);
    ShrShl(a, 16);
    ShrShl(b, 8);
  }

  /** One chunk: the groups that start between start and end. */
  method EncodeChunk(b: seq<byte>, start: nat, end: nat) returns (text: string)
    requires start % 3 == 0 && end % 3 == 0 && start <= end <= |b|
    ensures Quads(b, start / 3) + text == Quads(b, end / 3)
  {
    hide And, Shr, Shl, Quad, ShiftedQuad;
    text := "";
    var d := start;
    while d < end
      invariant start <= d <= end && d % 3 == 0
      invariant Quads(b, start / 3) + text == Quads(b, d / 3)
    {
      var x := And(Shl(b[d], 16), 16711680) + And(Shl(b[d + 1], 8), 65280) + And(b[d + 2], 255);
      MaskedBytes(b[d], b[d + 1], b[d + 2]);
      ShiftedQuadIsQuad(b[d], b[d + 1], b[d + 2], x);
      assert (d + 3) / 3 == d / 3 + 1 && 3 * (d / 3) == d;
      text := text + ShiftedQuad(x);
      d := d + 3;
    }
  }

  /** The chunked encoder: 16383 bytes at a time, then the one or two bytes left over. */
  method FromByteArray(b: seq<byte>) returns (text: string)
    ensures text == Encode(b)
  {
    hide *;
    EncodeParts(b);
    text := EncodeChunks(b);
    var tail := EncodeTail(b, |b| % 3);
    text := text + tail;
  }

  /** All full groups, chunk by chunk. */
  method EncodeChunks(b: seq<byte>) returns (text: string)
    ensures text == Quads(b, |b| / 3)
  {
    hide Quads;
    var whole := |b| - |b| % 3;
    text := "";
    var i := 0;
    NoQuads(b);
    ghost var groups: nat := 0;
    while i < whole
      invariant 0 <= groups <= |b| / 3 && text == Quads(b, groups)
      invariant if i < whole then i == 3 * groups else groups == |b| / 3
    {
      var end := if i + CHUNK > whole then whole else i + CHUNK;
      var chunk := EncodeChunk(b, i, end);
      text := text + chunk;
      groups := end / 3;
      i := i + CHUNK;
    }
  }

  lemma NoQuads(b: seq<byte>)
    ensures Quads(b, 0) == ""
  {
  }

  method EncodeTail(b: seq<byte>, extra: nat) returns (text: string)
    requires extra == |b| % 3
    ensures text == Tail(b[|b| / 3 * 3..])
  {
    hide And, Shr, Shl, Symbol;
    var n := |b|;
    ghost var rest := b[|b| / 3 * 3..];
    text := "";
    if extra == 1 {
      var r := b[n - 1];
      assert rest[0] == r;
      SingleTail(r);
      text := [Symbol(Shr(r, 2)), Symbol(And(Shl(r, 4), 63)), '=', '='];
    } else if extra == 2 {
      assert rest[0] == b[n - 2] && rest[1] == b[n - 1];
      var r := Shl(b[n - 2], 8) + b[n - 1];
      DoubleTail(b[n - 2], b[n - 1], r);
      text := [Symbol(Shr(r, 10)), Symbol(And(Shr(r, 4), 63)), Symbol(And(Shl(r, 2), 63)), '='];
    }
  }

  lemma NibbleShift(r: byte)
    ensures r * 16 % 64 == r % 4 * 16
  {
    DivModUnique(r * 16, 64, r / 4, r % 4 * 16);
  }

  lemma SingleTail(r: byte)
    ensures Shr(r, 2) == r / 4 < 64 && And(Shl(r, 4), 63) == r % 4 * 16 < 64
  {
    hide *;
    Shifts(r);
    Masks(Shl(r, 4));
    NibbleShift(r);
  }

  lemma DoubleTail(a: byte, b: byte, r: nat)
    requires r == Shl(a, 8) + b
    ensures Shr(r, 10) == a / 4 < 64 && And(Shr(r, 4), 63) == a % 4 * 16 + b / 16 < 64
    ensures And(Shl(r, 2), 63) == b % 16 * 4 < 64
  {
    hide And, Shr, Shl;
    Shifts(a);
    Shifts(r);
    Masks(Shr(r, 4));
    Masks(Shl(r, 2));
    PairSextets(a, b);
  }

  // ----- The second encoder ------------------------------------------------------------------------

  /** Masks first, then shifts, over or-ed bytes. */
  lemma OredBytes(a: byte, b: byte, c: byte)
    ensures Or(Or(Shl(a, 16), Shl(b, 8)), c) == a * 65536 + b * 256 + c
    ensures Or(Shl(a, 8), b) == a * 256 + b
  {
    hide Or, Shl, Shr, Pow2;
    Shifts(a); Shifts(b);
    Powers();
    OrDisjoint(a, 16, Shl(b, 8));
    OrDisjoint(a * 256 + b, 8, c);
    Shifts(a * 256 + b);
    OrDisjoint(a, 8, b);
  }

  lemma MaskThenShift(x: nat, m: nat, k: nat)
    ensures Shr(And(x, Shl(m, k)), k) == And(Shr(x, k), m)
  {
    hide And;
    AndHighMask(x, m, k);
    ShrShl(And(Shr(x, k), m), k);
  }

  lemma ShrShl(x: nat, k: nat)
    ensures Shr(Shl(x, k), k) == x
  {
    ShrChain(Shl(x, k), k);
    DivModUnique(Shl(x, k), Pow2(k), x, 0);
  }

  /** The mask constants are shifted runs of one bits. */
  lemma MaskConstants()
    ensures 16515072 == Shl(63, 18) && 258048 == Shl(63, 12) && 4032 == Shl(63, 6)
    ensures 252 == Shl(63, 2) && 64512 == Shl(63, 10) && 1008 == Shl(63, 4)
  {
    Shifts(63);
  }

  lemma MaskedSextets(x: nat)
    ensures Shr(And(x, 16515072), 18) == x / 262144 % 64 && Shr(And(x, 258048), 12) == x / 4096 % 64
    ensures Shr(And(x, 4032), 6) == x / 64 % 64 && And(x, 63) == x % 64
    ensures Shr(And(x, 252), 2) == x / 4 % 64 && Shl(And(x, 3), 4) == x % 4 * 16
    ensures Shr(And(x, 64512), 10) == x / 1024 % 64 && Shr(And(x, 1008), 4) == x / 16 % 64
    ensures Shl(And(x, 15), 2) == x % 16 * 4
  {
    hide And, Shr, Shl;
    MaskConstants();
    MaskThenShift(x, 63, 18); MaskThenShift(x, 63, 12); MaskThenShift(x, 63, 6);
    MaskThenShift(x, 63, 2); MaskThenShift(x, 63, 10); MaskThenShift(x, 63, 4);
    Shifts(x);
    Masks(x); Masks(Shr(x, 18)); Masks(Shr(x, 12)); Masks(Shr(x, 6));
    Masks(Shr(x, 2)); Masks(Shr(x, 10)); Masks(Shr(x, 4));
    Shifts(And(x, 3)); Shifts(And(x, 15));
  }

  /** Four symbols of a 24-bit number, masked before they are shifted. */
  function DirectQuad(g: nat): string {
    MaskedSextets(g);
    [Symbol(Shr(And(g, 16515072), 18)), Symbol(Shr(And(g, 258048), 12)),
     Symbol(Shr(And(g, 4032), 6)), Symbol(And(g, 63))]
  }

  lemma DirectQuadIsQuad(a: byte, b: byte, c: byte)
    ensures DirectQuad(Or(Or(Shl(a, 16), Shl(b, 8)), c)) == Quad(a, b, c)
  {
    hide And, Or, Shr, Shl, Symbol;
    OredBytes(a, b, c);
    MaskedSextets(a * 65536 + b * 256 + c);
    GroupSextets(a, b, c);
  }

  lemma DirectTails(a: byte, b: byte)
    ensures Shr(And(a, 252), 2) == a / 4 < 64 && Shl(And(a, 3), 4) == a % 4 * 16 < 64
    ensures var g := Or(Shl(a, 8), b);
            && Shr(And(g, 64512), 10) == a / 4 < 64 && Shr(And(g, 1008), 4) == a % 4 * 16 + b / 16 < 64
            && Shl(And(g, 15), 2) == b % 16 * 4 < 64
  {
    hide And, Or, Shr, Shl;
    OredBytes(a, b, 0);
    MaskedSextets(a);
    MaskedSextets(a * 256 + b);
    PairSextets(a, b);
  }

  /** The independent encoder produces the same text. */
  method EncodeDirectly(b: seq<byte>) returns (text: string)
    ensures text == Encode(b)
  {
    hide And, Or, Shr, Shl, Symbol, Quad, DirectQuad, Tail;
    text := "";
    var extra := |b| % 3;
    var whole := |b| - extra;
    var h := 0;
    while h < whole
      invariant 0 <= h <= whole && h % 3 == 0 && text == Quads(b, h / 3)
    {
      DirectQuadIsQuad(b[h], b[h + 1], b[h + 2]);
      assert (h + 3) / 3 == h / 3 + 1 && 3 * (h / 3) == h;
      text := text + DirectQuad(Or(Or(Shl(b[h], 16), Shl(b[h + 1], 8)), b[h + 2]));
      h := h + 3;
    }
    assert b[|b| / 3 * 3..] == b[whole..] && whole / 3 == |b| / 3;
    var tail := EncodeTailDirectly(b[whole..]);
    text := text + tail;
  }

  method EncodeTailDirectly(rest: seq<byte>) returns (text: string)
    requires |rest| < 3
    ensures text == Tail(rest)
  {
    hide And, Or, Shr, Shl, Symbol;
    text := "";
    if |rest| == 1 {
      var g := rest[0];
      DirectTails(g, 0);
      text := [Symbol(Shr(And(g, 252), 2)), Symbol(Shl(And(g, 3), 4)), '=', '='];
    } else if |rest| == 2 {
      var g := Or(Shl(rest[0], 8), rest[1]);
      DirectTails(rest[0], rest[1]);
      text := [Symbol(Shr(And(g, 64512), 10)), Symbol(Shr(And(g, 1008), 4)), Symbol(Shl(And(g, 15), 2)), '='];
    }
  }

  // ----- toByteArray -----------------------------------------------------------------------------

  /** Position of the first '=' at or after from, or the length of s. */
  function PaddingStart(s: string, from: nat): (m: nat)
    requires from <= |s|
    ensures from <= m <= |s| && (m < |s| ==> s[m] == '=') && forall k :: from <= k < m ==> s[k] != '='
    decreases |s| - from
  {
    if from == |s| || s[from] == '=' then from else PaddingStart(s, from + 1)
  }

  /** The three bytes that four symbols stand for. */
  function ThreeBytes(p: char, q: char, r: char, t: char): seq<byte> {
    var x := Lookup(p) * 262144 + Lookup(q) * 4096 + Lookup(r) * 64 + Lookup(t);
    [x / 65536 % 256, x / 256 % 256, x % 256]
  }

  function Groups(s: string, k: nat): (r: seq<byte>)
    requires 4 * k <= |s|
    ensures |r| == 3 * k
  {
    if k == 0 then [] else Groups(s, k - 1) + ThreeBytes(s[4 * k - 4], s[4 * k - 3], s[4 * k - 2], s[4 * k - 1])
  }

  /** Bytes of a last group of two or three symbols; no bytes for any other number. */
  function LastBytes(s: string): seq<byte> {
    if |s| == 2 then [(Lookup(s[0]) * 4 + Lookup(s[1]) / 16) % 256]
    else if |s| == 3 then
      var x := Lookup(s[0]) * 1024 + Lookup(s[1]) * 16 + Lookup(s[2]) / 4;
      [x / 256 % 256, x % 256]
    else []
  }

  /** What the decoder returns for any string: None where the code throws. */
  function Decode(s: string): Option<seq<byte>> {
    var m := PaddingStart(s, 0);
    if |s| % 4 > 0 then None
    else if m < |s| && m % 4 == 0 then if m == 0 then None else Some(Groups(s, m / 4 - 1) + [0, 0])
    else Some(Groups(s, m / 4) + LastBytes(s[m / 4 * 4..m]))
  }

  lemma OredSextets(p: nat, q: nat, r: nat, t: nat)
    requires p < 64 && q < 64 && r < 64 && t < 64
    ensures var x := Or(Or(Or(Shl(p, 18), Shl(q, 12)), Shl(r, 6)), t);
      && And(Shr(x, 16), 255) == (p * 262144 + q * 4096 + r * 64 + t) / 65536 % 256
      && And(Shr(x, 8), 255) == (p * 262144 + q * 4096 + r * 64 + t) / 256 % 256
      && And(x, 255) == (p * 262144 + q * 4096 + r * 64 + t) % 256
  {
    hide Or, And, Shr, Shl, Pow2;
    OrSum(p, q, r, t);
    LowBytes(p * 262144 + q * 4096 + r * 64 + t);
  }

  lemma OrSum(p: nat, q: nat, r: nat, t: nat)
    requires p < 64 && q < 64 && r < 64 && t < 64
    ensures Or(Or(Or(Shl(p, 18), Shl(q, 12)), Shl(r, 6)), t) == p * 262144 + q * 4096 + r * 64 + t
  {
    hide Or, Shr, Shl, Pow2;
    Shifts(p); Shifts(q); Shifts(r); Shifts(p * 64 + q); Shifts(p * 4096 + q * 64 + r);
    Powers();
    OrDisjoint(p, 18, Shl(q, 12));
    OrDisjoint(p * 64 + q, 12, Shl(r, 6));
    OrDisjoint(p * 4096 + q * 64 + r, 6, t);
  }

  lemma LowBytes(x: nat)
    ensures And(Shr(x, 16), 255) == x / 65536 % 256 && And(Shr(x, 8), 255) == x / 256 % 256 && And(x, 255) == x % 256
  {
    hide And, Shr, Shl;
    Shifts(x);
    Masks(x); Masks(Shr(x, 16)); Masks(Shr(x, 8));
  }

  lemma OredTails(p: nat, q: nat, r: nat)
    requires p < 64 && q < 64 && r < 64
    ensures And(Or(Shl(p, 2), Shr(q, 4)), 255) == (p * 4 + q / 16) % 256
    ensures var x := Or(Or(Shl(p, 10), Shl(q, 4)), Shr(r, 2));
      && And(Shr(x, 8), 255) == (p * 1024 + q * 16 + r / 4) / 256 % 256
      && And(x, 255) == (p * 1024 + q * 16 + r / 4) % 256
  {
    hide Or, And, Shr, Shl, Pow2;
    Shifts(p); Shifts(q); Shifts(r); Shifts(p * 64 + q);
    Powers();
    OrDisjoint(p, 2, q / 16);
    OrDisjoint(p, 10, q * 16);
    OrDisjoint(p * 64 + q, 4, r / 4);
    LowBytes(p * 4 + q / 16);
    LowBytes(p * 1024 + q * 16 + r / 4);
  }

  /** Three bytes out of four symbols. */
  method WriteGroup(bytes: array<byte>, i: nat, s: string, j: nat)
    requires i + 3 <= bytes.Length && j + 4 <= |s|
    modifies bytes
    ensures bytes[..i + 3] == old(bytes[..i]) + ThreeBytes(s[j], s[j + 1], s[j + 2], s[j + 3])
    ensures bytes[i + 3..] == old(bytes[i + 3..])
  {
    hide Or, And, Shr, Shl, Lookup;
    var p, q, r, t := Lookup(s[j]), Lookup(s[j + 1]), Lookup(s[j + 2]), Lookup(s[j + 3]);
    OredSextets(p, q, r, t);
    var x := Or(Or(Or(Shl(p, 18), Shl(q, 12)), Shl(r, 6)), t);
    bytes[i], bytes[i + 1], bytes[i + 2] := And(Shr(x, 16), 255), And(Shr(x, 8), 255), And(x, 255);
  }

  /** Fill the array with the bytes of the first k groups; the loop runs while its index is below end. */
  method FillGroups(bytes: array<byte>, s: string, end: int, ghost k: nat) returns (i: nat, j: nat)
    requires 4 * k <= |s| && 3 * k <= bytes.Length
    requires if k == 0 then end <= 0 else 4 * k - 4 < end <= 4 * k
    modifies bytes
    ensures i == 3 * k && j == 4 * k && bytes[..i] == Groups(s, k) && bytes[i..] == old(bytes[3 * k..])
  {
    hide ThreeBytes;
    i, j := 0, 0;
    ghost var g, start := 0, bytes[..];
    while j < end
      invariant 0 <= g <= k && i == 3 * g && j == 4 * g
      invariant bytes[..i] == Groups(s, g) && bytes[i..] == start[i..]
    {
      assert bytes[i + 3..] == bytes[i..][3..];
      WriteGroup(bytes, i, s, j);
      assert start[i + 3..] == start[i..][3..];
      i, j, g := i + 3, j + 4, g + 1;
    }
  }

  /** The one or two bytes of a padded last group, if the array has room for them by its padding. */
  method FillLast(bytes: array<byte>, s: string, i: nat, j: nat, padding: nat)
    requires padding <= 4 && (padding > 0 ==> j + 4 - padding <= |s|)
    requires bytes.Length == i + if padding == 2 then 1 else if padding == 1 || padding == 4 then 2 else 0
    requires padding == 4 ==> bytes[i..] == [0, 0]
    modifies bytes
    ensures bytes[..] == old(bytes[..i])
                       + if padding == 4 then [0, 0] else if padding == 0 then [] else LastBytes(s[j..j + 4 - padding])
  {
    hide Or, And, Shr, Shl, Lookup;
    ghost var before := bytes[..];
    assert before == before[..i] + before[i..];
    if padding == 2 {
      assert s[j..j + 2] == [s[j], s[j + 1]];
      OredTails(Lookup(s[j]), Lookup(s[j + 1]), 0);
      bytes[i] := And(Or(Shl(Lookup(s[j]), 2), Shr(Lookup(s[j + 1]), 4)), 255);
    }
    if padding == 1 {
      assert s[j..j + 3] == [s[j], s[j + 1], s[j + 2]];
      OredTails(Lookup(s[j]), Lookup(s[j + 1]), Lookup(s[j + 2]));
      var x := Or(Or(Shl(Lookup(s[j]), 10), Shl(Lookup(s[j + 1]), 4)), Shr(Lookup(s[j + 2]), 2));
      bytes[i], bytes[i + 1] := And(Shr(x, 8), 255), And(x, 255);
    }
    assert bytes[..i] == before[..i];
    assert bytes[..] == bytes[..i] + bytes[i..];
  }

  /** How the padding sizes the byte array and bounds the loop over whole groups. */
  lemma Sizes(m: nat, padding: nat)
    requires padding == 0 || padding == 4 - m % 4
    requires padding == 0 ==> m % 4 == 0
    ensures var k, size := if padding == 4 then m / 4 - 1 else m / 4, (m + padding) * 3 / 4 - padding;
      var end := if padding > 0 then m - 4 else m;
      && (m == 0 && padding == 4 ==> size < 0)
      && (m > 0 || padding == 0 ==>
           k >= 0 && size == 3 * k + (if padding == 2 then 1 else if padding == 1 || padding == 4 then 2 else 0)
           && if k == 0 then end <= 0 else 4 * k - 4 < end <= 4 * k)
  {
    var k := m / 4;
    assert m == 4 * k + m % 4;
  }

  /** Validate, size the byte array from the padding, fill it group by group, then the last bytes. */
  method ToByteArray(s: string) returns (result: Option<seq<byte>>)
    ensures result == Decode(s)
  {
    hide LastBytes, Groups;
    if |s| % 4 > 0 {
      return None;
    }
    var m := PaddingStart(s, 0);
    var padding := if m == |s| then 0 else 4 - m % 4;
    var size: int := (m + padding) * 3 / 4 - padding as int;
    Sizes(m, padding);
    if size < 0 {
      return None;
    }
    var bytes := new byte[size](_ => 0);
    var end: int := if padding > 0 then m as int - 4 else m;
    ghost var k := if padding == 4 then m / 4 - 1 else m / 4;
    ghost var zeros := bytes[..];
    var i, j := FillGroups(bytes, s, end, k);
    assert bytes[i..] == zeros[3 * k..];
    FillLast(bytes, s, i, j, padding);
    NoLastBytes();
    assert padding < 4 ==> s[m / 4 * 4..m] == if padding == 0 then "" else s[j..j + 4 - padding];
    result := Some(bytes[..]);
  }

  // ----- Round trip ---------------------------------------------------------------------------------

  lemma QuadRoundTrip(a: byte, b: byte, c: byte)
    ensures var q := Quad(a, b, c); ThreeBytes(q[0], q[1], q[2], q[3]) == [a, b, c]
    ensures forall k :: 0 <= k < 4 ==> Quad(a, b, c)[k] != '='
  {
    hide Symbol, Lookup;
    SymbolShape(a / 4);
    SymbolShape(a % 4 * 16 + b / 16);
    SymbolShape(b % 16 * 4 + c / 64);
    SymbolShape(c % 64);
    Recombine(a, b, c);
  }

  lemma Recombine(a: int, b: int, c: int)
    requires 0 <= a < 256 && 0 <= b < 256 && 0 <= c < 256
    ensures a / 4 * 262144 + (a % 4 * 16 + b / 16) * 4096 + (b % 16 * 4 + c / 64) * 64 + c % 64
         == a * 65536 + b * 256 + c
    ensures (a * 65536 + b * 256 + c) / 65536 % 256 == a && (a * 65536 + b * 256 + c) / 256 % 256 == b
    ensures (a * 65536 + b * 256 + c) % 256 == c
  {
    assert a == a / 4 * 4 + a % 4 && b == b / 16 * 16 + b % 16 && c == c / 64 * 64 + c % 64;
    assert (a * 65536 + b * 256 + c) / 65536 == a;
    assert (a * 65536 + b * 256 + c) / 256 == a * 256 + b;
  }

  lemma RecombineTail(a: int, b: int)
    requires 0 <= a < 256 && 0 <= b < 256
    ensures (a / 4 * 4 + a % 4 * 16 / 16) % 256 == a
    ensures a / 4 * 1024 + (a % 4 * 16 + b / 16) * 16 + b % 16 * 4 / 4 == a * 256 + b
    ensures (a * 256 + b) / 256 % 256 == a && (a * 256 + b) % 256 == b
  {
    assert a == a / 4 * 4 + a % 4 && b == b / 16 * 16 + b % 16;
  }

  lemma {:induction false} QuadsRoundTrip(b: seq<byte>, k: nat, rest: string)
    requires 3 * k <= |b|
    ensures Groups(Quads(b, k) + rest, k) == b[..3 * k]
    ensures forall i :: 0 <= i < 4 * k ==> Quads(b, k)[i] != '='
  {
    hide Quad, ThreeBytes;
    if k > 0 {
      var q := Quad(b[3 * k - 3], b[3 * k - 2], b[3 * k - 1]);
      QuadRoundTrip(b[3 * k - 3], b[3 * k - 2], b[3 * k - 1]);
      assert Quads(b, k) + rest == Quads(b, k - 1) + (q + rest);
      QuadsRoundTrip(b, k - 1, q + rest);
      assert b[..3 * k] == b[..3 * (k - 1)] + [b[3 * k - 3], b[3 * k - 2], b[3 * k - 1]];
    }
  }

  lemma TailRoundTrip(b: seq<byte>)
    requires |b| < 3
    ensures |b| == 0 ==> Tail(b) == ""
    ensures |b| > 0 ==> |Tail(b)| == 4 && (forall k :: 0 <= k <= |b| ==> Tail(b)[k] != '=') && Tail(b)[|b| + 1] == '='
    ensures |b| > 0 ==> LastBytes(Tail(b)[..|b| + 1]) == b
  {
    hide Symbol, Lookup;
    if |b| == 1 {
      SymbolShape(b[0] / 4);
      SymbolShape(b[0] % 4 * 16);
      RecombineTail(b[0], 0);
    } else if |b| == 2 {
      SymbolShape(b[0] / 4);
      SymbolShape(b[0] % 4 * 16 + b[1] / 16);
      SymbolShape(b[1] % 16 * 4);
      RecombineTail(b[0], b[1]);
    }
  }

  lemma {:induction false} PaddingStartIs(s: string, from: nat, m: nat)
    requires from <= m <= |s| && (m < |s| ==> s[m] == '=') && forall k :: from <= k < m ==> s[k] != '='
    ensures PaddingStart(s, from) == m
    decreases m - from
  {
    if from < m { PaddingStartIs(s, from + 1, m); }
  }

  lemma DecodeParts(s: string, m: nat)
    requires PaddingStart(s, 0) == m && |s| % 4 == 0 && (m == |s| || m % 4 != 0)
    ensures m <= |s| && Decode(s) == Some(Groups(s, m / 4) + LastBytes(s[m / 4 * 4..m]))
  {
    hide Groups, LastBytes;
  }

  /** Decoding an encoded byte sequence gives it back, for every byte sequence. */
  lemma RoundTrip(b: seq<byte>)
    ensures Decode(Encode(b)) == Some(b)
  {
    hide *;
    var k, s := |b| / 3, Encode(b);
    var rest := b[k * 3..];
    EncodeParts(b);
    QuadsRoundTrip(b, k, Tail(rest));
    TailRoundTrip(rest);
    assert b == b[..3 * k] + rest && s == Quads(b, k) + Tail(rest);
    var m := if |rest| == 0 then 4 * k else 4 * k + |rest| + 1;
    PaddingStartIs(s, 0, m);
    assert m / 4 == k;
    DecodeParts(s, m);
    if |rest| == 0 {
      assert s[m / 4 * 4..m] == "";
      NoLastBytes();
    } else {
      assert s[m / 4 * 4..m] == Tail(rest)[..|rest| + 1];
    }
  }

  /** The URL-safe spelling of a text: '-' for '+' and '_' for '/'. */
  function UrlSafe(s: string): (r: string)
    ensures |r| == |s|
    ensures forall k :: 0 <= k < |s| ==> r[k] == if s[k] == '+' then '-' else if s[k] == '/' then '_' else s[k]
  {
    seq(|s|, k requires 0 <= k < |s| => if s[k] == '+' then '-' else if s[k] == '/' then '_' else s[k])
  }

  /** Decoding the URL-safe spelling of an encoded text gives the bytes back as well. */
  lemma UrlSafeRoundTrip(b: seq<byte>)
    ensures Decode(UrlSafe(Encode(b))) == Some(b)
  {
    hide Encode, Decode;
    var s := Encode(b);
    forall k | 0 <= k < |s| ensures Lookup(UrlSafe(s)[k]) == Lookup(s[k]) && (UrlSafe(s)[k] == '=' <==> s[k] == '=') {
    }
    RoundTrip(b);
    SameReading(s, UrlSafe(s));
  }

  /** Decoding looks at a text only through the values of its symbols and the position of its padding. */
  lemma SameReading(s: string, t: string)
    requires |s| == |t|
    requires forall k :: 0 <= k < |s| ==> Lookup(s[k]) == Lookup(t[k]) && (s[k] == '=' <==> t[k] == '=')
    ensures Decode(s) == Decode(t)
  {
    hide Lookup, Groups, LastBytes, PaddingStart;
    var m := PaddingStart(s, 0);
    PaddingStartIs(t, 0, m);
    if m >= 4 { SameGroups(s, t, m / 4 - 1); }
    SameGroups(s, t, m / 4);
    SameSlice(s, t, m / 4 * 4, m);
  }

  lemma SameSlice(s: string, t: string, i: nat, m: nat)
    requires i <= m <= |s| == |t| && forall k :: 0 <= k < |s| ==> Lookup(s[k]) == Lookup(t[k])
    ensures LastBytes(s[i..m]) == LastBytes(t[i..m])
  {
    hide Lookup, LastBytes;
    var x, y := s[i..m], t[i..m];
    assert forall k :: 0 <= k < |x| ==> x[k] == s[i + k] && y[k] == t[i + k];
    SameLast(x, y);
  }

  lemma SameLast(x: string, y: string)
    requires |x| == |y| && forall k :: 0 <= k < |x| ==> Lookup(x[k]) == Lookup(y[k])
    ensures LastBytes(x) == LastBytes(y)
  {
    hide Lookup;
  }

  lemma {:induction false} SameGroups(s: string, t: string, k: nat)
    requires 4 * k <= |s| == |t| && forall i :: 0 <= i < |s| ==> Lookup(s[i]) == Lookup(t[i])
    ensures Groups(s, k) == Groups(t, k)
  {
    hide Lookup;
    if k > 0 { SameGroups(s, t, k - 1); }
  }

  /** The decoder throws exactly on a text whose length is not a multiple of four, and on a non-empty text that
      starts with padding. */
  lemma DecodeFailsIff(s: string)
    ensures Decode(s).None? <==> |s| % 4 != 0 || (s != "" && s[0] == '=')
  {
    hide Groups, LastBytes;
    if s != "" && s[0] == '=' { PaddingStartIs(s, 0, 0); }
  }

  lemma NoLastBytes()
    ensures LastBytes("") == []
  {
  }
}
