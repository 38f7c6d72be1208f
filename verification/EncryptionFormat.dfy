/** The text format of encrypted fields, its parser, and what repeated encryption looks like. */
module EncryptionFormat {
  import opened Basics

  datatype Outcome = Plain(text: string) | Failed

  const IV_BYTES := 12

  /** AES-256-GCM under the fixed key: sealing gives an authentication tag and a ciphertext. */
  datatype Cipher = Cipher(
    seal: (seq<byte>, string) -> (seq<byte>, seq<byte>),
    open: (seq<byte>, seq<byte>, seq<byte>) -> Option<string>)
  {
    /** Opening what was sealed under the same IV gives the text back, and the ciphertext has a byte for every
        byte of the text's UTF-8 form, hence at least one per character (sections 7.1 and 7.2 of NIST SP 800-38D). */
    ghost predicate Lawful() {
      forall iv, text {:trigger seal(iv, text)} :: |iv| == IV_BYTES ==>
        open(iv, seal(iv, text).0, seal(iv, text).1) == Some(text) && |seal(iv, text).1| >= |text|
    }
  }

  // ----- Hexadecimal ---------------------------------------------------------------

  function HexDigit(n: int): (c: char)
    requires 0 <= n < 16
    ensures IsHex(c) && HexValue(c) == n
  {
    if n < 10 then '0' + n as char else 'a' + (n - 10) as char
  }

  /** The characters that hexadecimal output consists of. */
  predicate IsHex(c: char) {
    '0' <= c <= '9' || 'a' <= c <= 'f'
  }

  /** Value of a hexadecimal digit in either case, -1 for any other character. */
  function HexValue(c: char): int {
    if '0' <= c <= '9' then (c - '0') as int
    else if 'a' <= c <= 'f' then (c - 'a') as int + 10
    else if 'A' <= c <= 'F' then (c - 'A') as int + 10
    else -1
  }

  function ToHex(bytes: seq<byte>): (s: string)
    ensures |s| == 2 * |bytes| && forall k :: 0 <= k < |s| ==> IsHex(s[k])
  {
    if bytes == [] then ""
    else [HexDigit(bytes[0] / 16), HexDigit(bytes[0] % 16)] + ToHex(bytes[1..])
  }

  /** Buffer.from(s, 'hex'): stops at the first pair that is not two hexadecimal digits. */
  function FromHex(s: string): seq<byte> {
    if |s| < 2 || HexValue(s[0]) < 0 || HexValue(s[1]) < 0 then []
    else [HexValue(s[0]) * 16 + HexValue(s[1])] + FromHex(s[2..])
  }

  lemma {:induction false} HexRoundTrip(bytes: seq<byte>)
    ensures FromHex(ToHex(bytes)) == bytes
  {
    if bytes != [] {
      assert ToHex(bytes)[2..] == ToHex(bytes[1..]);
      HexRoundTrip(bytes[1..]);
    }
  }

  // ----- Splitting at colons ----------------------------------------------------------

  function Split(s: string): (parts: seq<string>)
    ensures |parts| >= 1
  {
    if s == "" then [""]
    else if s[0] == ':' then [""] + Split(s[1..])
    else var rest := Split(s[1..]); [[s[0]] + rest[0]] + rest[1..]
  }

  lemma {:induction false} SplitPart(p: string, rest: string)
    requires ':' !in p
    ensures Split(p) == [p]
    ensures Split(p + ":" + rest) == [p] + Split(rest)
  {
    var s := p + ":" + rest;
    if p == "" {
      assert s == ":" + rest && s[1..] == rest;
    } else {
      assert ':' !in p[1..];
      SplitPart(p[1..], rest);
      assert s[0] == p[0] && s[1..] == p[1..] + ":" + rest;
      assert [p[0]] + p[1..] == p;
    }
  }

  /** The parts with a colon between each two of them. */
  function Join(parts: seq<string>): string
    requires |parts| >= 1
  {
    if |parts| == 1 then parts[0] else parts[0] + ":" + Join(parts[1..])
  }

  ghost predicate NoColons(parts: seq<string>) {
    forall k :: 0 <= k < |parts| ==> ':' !in parts[k]
  }

  /** Splitting gives the only colon-free parts that join to the string. */
  lemma {:induction false} SplitJoins(s: string)
    ensures Join(Split(s)) == s && NoColons(Split(s))
  {
    if s == "" {
      assert Split(s) == [""];
    } else {
      hide Join, NoColons;
      SplitJoins(s[1..]);
      var rest := Split(s[1..]);
      if s[0] == ':' {
        assert Split(s) == [""] + rest && s == ":" + s[1..];
        NewPart(rest);
      } else {
        assert Split(s) == [[s[0]] + rest[0]] + rest[1..] && s == [s[0]] + s[1..];
        LongerPart(s[0], rest);
      }
    }
  }

  lemma JoinStep(part: string, parts: seq<string>)
    requires |parts| >= 1
    ensures Join([part] + parts) == part + (":" + Join(parts)) == part + ":" + Join(parts)
  {
    assert ([part] + parts)[1..] == parts;
  }

  lemma JoinOne(part: string)
    ensures Join([part]) == part
  {
  }

  lemma NewPart(parts: seq<string>)
    requires |parts| >= 1 && NoColons(parts)
    ensures Join([""] + parts) == ":" + Join(parts) && NoColons([""] + parts)
  {
    hide Join;
    JoinStep("", parts);
    assert "" + (":" + Join(parts)) == ":" + Join(parts);
  }

  lemma LongerPart(c: char, parts: seq<string>)
    requires |parts| >= 1 && NoColons(parts) && c != ':'
    ensures Join([[c] + parts[0]] + parts[1..]) == [c] + Join(parts) && NoColons([[c] + parts[0]] + parts[1..])
  {
    hide Join, NoColons;
    var rest := parts[1..];
    assert parts == [parts[0]] + rest;
    if |parts| == 1 {
      assert rest == [] && parts == [parts[0]] && [[c] + parts[0]] + rest == [[c] + parts[0]];
      JoinOne(parts[0]);
      JoinOne([c] + parts[0]);
    } else {
      JoinStep(parts[0], rest);
      JoinStep([c] + parts[0], rest);
      Associative([c], parts[0], ":" + Join(rest));
    }
    StillNoColons(c, parts);
  }

  lemma Associative(x: string, y: string, z: string)
    ensures x + (y + z) == (x + y) + z
  {
  }

  lemma StillNoColons(c: char, parts: seq<string>)
    requires |parts| >= 1 && NoColons(parts) && c != ':'
    ensures NoColons([[c] + parts[0]] + parts[1..])
  {
  }

  lemma {:induction false} SplitOfJoin(parts: seq<string>)
    requires |parts| >= 1 && NoColons(parts)
    ensures Split(Join(parts)) == parts
  {
    hide Split;
    if |parts| == 1 {
      SplitPart(parts[0], "");
      assert parts == [parts[0]];
    } else {
      SplitOfJoin(parts[1..]);
      SplitPart(parts[0], Join(parts[1..]));
      assert parts == [parts[0]] + parts[1..];
    }
  }

  // ----- The format ---------------------------------------------------------------------

  /** The three payload fields behind their prefix. */
  function Payload(c: Cipher, iv: seq<byte>, text: string): string {
    var (tag, body) := c.seal(iv, text);
    ToHex(iv) + ":" + (ToHex(tag) + ":" + ToHex(body))
  }

  function Encrypt(c: Cipher, iv: seq<byte>, text: string): string {
    if text == "" then text else "enc:v1:" + Payload(c, iv, text)
  }

  /** The older form without a version field, which decrypt still reads. */
  function LegacyEncrypt(c: Cipher, iv: seq<byte>, text: string): string {
    "enc:" + Payload(c, iv, text)
  }

  function Decrypt(c: Cipher, text: string): Outcome {
    if text == "" || !("enc:" <= text) then Plain(text)
    else
      var parts := Split(text);
      if |parts| == 5 && parts[1] == "v1" then OpenHex(c, parts[2], parts[3], parts[4])
      else if |parts| == 4 then OpenHex(c, parts[1], parts[2], parts[3])
      else Failed
  }

  function OpenHex(c: Cipher, iv: string, tag: string, body: string): Outcome {
    match c.open(FromHex(iv), FromHex(tag), FromHex(body))
    case Some(text) => Plain(text)
    case None => Failed
  }

  lemma SplitPayload(c: Cipher, iv: seq<byte>, text: string)
    ensures Split(Payload(c, iv, text)) == [ToHex(iv), ToHex(c.seal(iv, text).0), ToHex(c.seal(iv, text).1)]
  {
    hide Split, ToHex;
    var (tag, body) := c.seal(iv, text);
    SplitPart(ToHex(iv), ToHex(tag) + ":" + ToHex(body));
    SplitPart(ToHex(tag), ToHex(body));
    SplitPart(ToHex(body), "");
    assert Payload(c, iv, text) == ToHex(iv) + ":" + (ToHex(tag) + ":" + ToHex(body));
  }

  lemma SplitVersioned(c: Cipher, iv: seq<byte>, text: string)
    ensures Split("enc:v1:" + Payload(c, iv, text))
         == ["enc", "v1", ToHex(iv), ToHex(c.seal(iv, text).0), ToHex(c.seal(iv, text).1)]
  {
    var p := Payload(c, iv, text);
    SplitPayload(c, iv, text);
    hide Split, Payload, ToHex;
    SplitPart("v1", p);
    SplitPart("enc", "v1" + ":" + p);
    assert "enc:v1:" + p == "enc" + ":" + ("v1" + ":" + p);
  }

  lemma SplitLegacy(c: Cipher, iv: seq<byte>, text: string)
    ensures Split(LegacyEncrypt(c, iv, text))
         == ["enc", ToHex(iv), ToHex(c.seal(iv, text).0), ToHex(c.seal(iv, text).1)]
  {
    var p := Payload(c, iv, text);
    SplitPayload(c, iv, text);
    hide Split, Payload, ToHex;
    SplitPart("enc", p);
    assert LegacyEncrypt(c, iv, text) == "enc" + ":" + p;
  }

  /** Three colon-separated fields that open to t. */
  ghost predicate Opens(c: Cipher, iv: string, tag: string, body: string, t: string) {
    NoColons([iv, tag, body]) && c.open(FromHex(iv), FromHex(tag), FromHex(body)) == Some(t)
  }

  ghost predicate OpensVersioned(c: Cipher, s: string, t: string) {
    exists iv, tag, body ::
      s == "enc:v1:" + (iv + ":" + (tag + ":" + body)) && Opens(c, iv, tag, body, t)
  }

  ghost predicate OpensLegacy(c: Cipher, s: string, t: string) {
    exists iv, tag, body ::
      s == "enc:" + (iv + ":" + (tag + ":" + body)) && Opens(c, iv, tag, body, t)
  }

  lemma JoinFields(iv: string, tag: string, body: string)
    ensures Join(["enc", "v1", iv, tag, body]) == "enc:v1:" + (iv + ":" + (tag + ":" + body))
    ensures Join(["enc", iv, tag, body]) == "enc:" + (iv + ":" + (tag + ":" + body))
  {
    hide Split;
    var rest := iv + ":" + (tag + ":" + body);
    JoinStep(tag, [body]);
    JoinStep(iv, [tag, body]);
    JoinStep("v1", [iv, tag, body]);
    JoinStep("enc", ["v1", iv, tag, body]);
    JoinStep("enc", [iv, tag, body]);
    assert "enc" + ":" + ("v1" + ":" + rest) == "enc:v1:" + rest;
  }

  lemma SplitPrefixed(s: string)
    requires "enc:" <= s
    ensures Split(s)[0] == "enc"
  {
    hide Split;
    assert s == "enc" + ":" + s[4..];
    SplitPart("enc", s[4..]);
  }

  /** What decryption accepts and returns, for every string: text without the prefix comes back as it is, and a
      prefixed string is read as one of the two forms or not at all. */
  lemma DecryptsIff(c: Cipher, s: string, t: string)
    ensures Decrypt(c, s) == Plain(t) <==> (!("enc:" <= s) && t == s) || OpensVersioned(c, s, t) || OpensLegacy(c, s, t)
  {
    hide Split, Join, FromHex;
    if "enc:" <= s {
      var parts := Split(s);
      SplitJoins(s);
      SplitPrefixed(s);
      if |parts| == 5 && parts[1] == "v1" {
        assert parts == ["enc", "v1", parts[2], parts[3], parts[4]];
        JoinFields(parts[2], parts[3], parts[4]);
      } else if |parts| == 4 {
        assert parts == ["enc", parts[1], parts[2], parts[3]];
        JoinFields(parts[1], parts[2], parts[3]);
      }
    }
    if OpensVersioned(c, s, t) { VersionedDecrypts(c, s, t); }
    if OpensLegacy(c, s, t) { LegacyDecrypts(c, s, t); }
  }

  lemma VersionedDecrypts(c: Cipher, s: string, t: string)
    requires OpensVersioned(c, s, t)
    ensures Decrypt(c, s) == Plain(t) && "enc:" <= s
  {
    hide Split, Join, FromHex;
    var iv, tag, body :| s == "enc:v1:" + (iv + ":" + (tag + ":" + body)) && Opens(c, iv, tag, body, t);
    JoinFields(iv, tag, body);
    assert s[..4] == "enc:v1:"[..4] == "enc:";
    assert forall k :: 0 <= k < 3 ==> ':' !in [iv, tag, body][k];
    assert iv == [iv, tag, body][0] && tag == [iv, tag, body][1] && body == [iv, tag, body][2];
    SplitOfJoin(["enc", "v1", iv, tag, body]);
  }

  lemma LegacyDecrypts(c: Cipher, s: string, t: string)
    requires OpensLegacy(c, s, t)
    ensures Decrypt(c, s) == Plain(t) && "enc:" <= s
  {
    hide Split, Join, FromHex;
    var iv, tag, body :| s == "enc:" + (iv + ":" + (tag + ":" + body)) && Opens(c, iv, tag, body, t);
    JoinFields(iv, tag, body);
    assert s[..4] == "enc:";
    assert iv == [iv, tag, body][0] && tag == [iv, tag, body][1] && body == [iv, tag, body][2];
    SplitOfJoin(["enc", iv, tag, body]);
  }

  /** Decrypting an encrypted string restores it: every string, every IV, prefixed strings and the empty one too. */
  lemma RoundTrip(c: Cipher, iv: seq<byte>, text: string)
    requires c.Lawful() && |iv| == IV_BYTES
    ensures Decrypt(c, Encrypt(c, iv, text)) == Plain(text)
    ensures Decrypt(c, LegacyEncrypt(c, iv, text)) == Plain(text)
  {
    hide Split, FromHex, ToHex, Payload;
    SplitVersioned(c, iv, text);
    SplitLegacy(c, iv, text);
    assert "enc:v1:"[..4] == "enc:";
    var (tag, body) := c.seal(iv, text);
    HexRoundTrip(iv);
    HexRoundTrip(tag);
    HexRoundTrip(body);
  }

  /** No string is both a versioned and a legacy ciphertext. */
  lemma FormsDisjoint(c: Cipher, iv: seq<byte>, text: string, iv': seq<byte>, text': string)
    requires text != ""
    ensures Encrypt(c, iv, text) != LegacyEncrypt(c, iv', text')
  {
    SplitVersioned(c, iv, text);
    SplitLegacy(c, iv', text');
  }

  /** Ciphertexts under different IVs differ, so an equality lookup by an encrypted field only finds a
      stored value that happens to carry the very IV drawn for the lookup. */
  lemma DifferentIvDiffers(c: Cipher, iv: seq<byte>, text: string, iv': seq<byte>, text': string)
    requires iv != iv' && text != "" && text' != ""
    ensures Encrypt(c, iv, text) != Encrypt(c, iv', text')
  {
    SplitVersioned(c, iv, text);
    SplitVersioned(c, iv', text');
    HexRoundTrip(iv);
    HexRoundTrip(iv');
  }

  // ----- Layers ----------------------------------------------------------------------------

  /** s is plain encrypted k times, under some IVs. */
  ghost predicate Layered(c: Cipher, k: nat, plain: string, s: string)
    decreases k
  {
    if k == 0 then s == plain
    else exists iv, inner :: IsLayer(c, iv, inner, s) && Layered(c, k - 1, plain, inner)
  }

  ghost predicate IsLayer(c: Cipher, iv: seq<byte>, inner: string, s: string) {
    |iv| == IV_BYTES && s == Encrypt(c, iv, inner)
  }

  lemma AddLayer(c: Cipher, k: nat, plain: string, inner: string, iv: seq<byte>)
    requires Layered(c, k, plain, inner) && |iv| == IV_BYTES
    ensures Layered(c, k + 1, plain, Encrypt(c, iv, inner))
  {
    assert IsLayer(c, iv, inner, Encrypt(c, iv, inner));
  }

  /** Decryption never fails on a layered string and removes exactly one layer. */
  lemma RemoveLayer(c: Cipher, k: nat, plain: string, s: string)
    requires c.Lawful() && k > 0 && Layered(c, k, plain, s)
    ensures Decrypt(c, s).Plain? && Layered(c, k - 1, plain, Decrypt(c, s).text)
  {
    var iv, inner :| IsLayer(c, iv, inner, s) && Layered(c, k - 1, plain, inner);
    RoundTrip(c, iv, inner);
  }

  lemma {:induction false} LayersOfEmpty(c: Cipher, k: nat, plain: string, s: string)
    requires Layered(c, k, plain, s)
    ensures s == "" <==> plain == ""
  {
    hide Payload;
    if k > 0 {
      var iv, inner :| IsLayer(c, iv, inner, s) && Layered(c, k - 1, plain, inner);
      LayersOfEmpty(c, k - 1, plain, inner);
    }
  }

  /** A layered non-empty string is the encryption of a non-empty string. */
  lemma OuterLayer(c: Cipher, k: nat, plain: string, s: string) returns (iv: seq<byte>, inner: string)
    requires Layered(c, k, plain, s) && k > 0 && plain != ""
    ensures IsLayer(c, iv, inner, s) && inner != "" && Layered(c, k - 1, plain, inner)
  {
    hide Encrypt;
    iv, inner :| IsLayer(c, iv, inner, s) && Layered(c, k - 1, plain, inner);
    LayersOfEmpty(c, k - 1, plain, inner);
  }

  /** Every layer makes the string longer. */
  lemma {:induction false} LayersLengthen(c: Cipher, k: nat, plain: string, s: string)
    requires c.Lawful() && Layered(c, k, plain, s) && plain != ""
    ensures |s| >= |plain| + k
  {
    hide Encrypt;
    if k > 0 {
      var iv, inner := OuterLayer(c, k, plain, s);
      LayersLengthen(c, k - 1, plain, inner);
      EncryptLengthens(c, iv, inner);
    }
  }

  lemma EncryptLengthens(c: Cipher, iv: seq<byte>, text: string)
    requires c.Lawful() && |iv| == IV_BYTES && text != ""
    ensures |Encrypt(c, iv, text)| > |text|
  {
    assert |c.seal(iv, text).1| >= |text|;
  }

  /** Remove k layers, skipping over what cannot be decrypted. */
  function Peel(c: Cipher, k: nat, s: string): string {
    if k == 0 then s else Unwrap(c, Peel(c, k - 1, s))
  }

  /** One decryption whose failure is ignored. */
  function Unwrap(c: Cipher, s: string): string {
    match Decrypt(c, s)
    case Plain(text) => text
    case Failed => s
  }

  lemma {:induction false} PeelLayers(c: Cipher, j: nat, k: nat, plain: string, s: string)
    requires c.Lawful() && j <= k && Layered(c, k, plain, s)
    ensures Layered(c, k - j, plain, Peel(c, j, s))
  {
    hide Decrypt, Encrypt;
    if j > 0 {
      PeelLayers(c, j - 1, k, plain, s);
      RemoveLayer(c, k - (j - 1), plain, Peel(c, j - 1, s));
    }
  }

  /** Peeling restores the text exactly when it removes all layers. */
  lemma PeelRestores(c: Cipher, j: nat, k: nat, plain: string, s: string)
    requires c.Lawful() && j <= k && Layered(c, k, plain, s)
    ensures Peel(c, j, s) == plain <==> j == k || plain == ""
  {
    hide Decrypt, Encrypt, Peel;
    PeelLayers(c, j, k, plain, s);
    LayersOfEmpty(c, k - j, plain, Peel(c, j, s));
    if plain != "" { LayersLengthen(c, k - j, plain, Peel(c, j, s)); }
  }

  /** A string that decryption leaves alone: it has no prefix, or splits into neither of the two forms. */
  predicate Untouchable(s: string) {
    !("enc:" <= s) || (|Split(s)| != 4 && (|Split(s)| != 5 || Split(s)[1] != "v1"))
  }

  /** Any number of reads leaves clear text and malformed text as it is; the latter because decryption fails. */
  lemma {:induction false} UntouchableStays(c: Cipher, k: nat, s: string)
    requires Untouchable(s)
    ensures Peel(c, k, s) == s
    ensures Decrypt(c, s) == if "enc:" <= s then Failed else Plain(s)
  {
    hide Split;
    if k > 0 { UntouchableStays(c, k - 1, s); }
  }

  /** The number of layers is determined by the plain and the layered string. */
  lemma LayersUnique(c: Cipher, k: nat, k': nat, plain: string, s: string)
    requires c.Lawful() && Layered(c, k, plain, s) && Layered(c, k', plain, s) && plain != ""
    ensures k == k'
  {
    hide Decrypt, Encrypt, Peel;
    if k <= k' { PeelRestores(c, k, k, plain, s); PeelRestores(c, k, k', plain, s); }
    else { PeelRestores(c, k', k', plain, s); PeelRestores(c, k', k, plain, s); }
  }

  // ----- The marker ---------------------------------------------------------------------------

  const MARKER := "enc:v1:"

  lemma EncryptedIsMarked(c: Cipher, iv: seq<byte>, text: string)
    requires text != ""
    ensures var s := Encrypt(c, iv, text); |s| >= 7 && s[..7] == MARKER && "enc:" <= s
  {
    var s := Encrypt(c, iv, text);
    assert s == MARKER + Payload(c, iv, text);
    assert s[..4] == "enc:";
  }

  /** Where the fields of a ciphertext stand: 24 digits of the IV, then the tag and the ciphertext in hexadecimal. */
  lemma TextLayout(c: Cipher, iv: seq<byte>, text: string)
    requires |iv| == IV_BYTES && text != ""
    ensures var s := Encrypt(c, iv, text);
      var (tag, body) := c.seal(iv, text);
      && |s| == 33 + 2 * |tag| + 2 * |body| && s[..7] == "enc:v1:" && s[31] == ':' == s[32 + 2 * |tag|]
      && FromHex(s[7..31]) == iv && FromHex(s[32..32 + 2 * |tag|]) == tag && FromHex(s[33 + 2 * |tag|..]) == body
  {
    hide FromHex, ToHex;
    var (tag, body) := c.seal(iv, text);
    HexRoundTrip(iv);
    HexRoundTrip(tag);
    HexRoundTrip(body);
    Fields("enc:v1:", ToHex(iv), ToHex(tag), ToHex(body));
  }

  lemma Fields(prefix: string, p: string, q: string, r: string)
    requires |prefix| == 7 && |p| == 24
    ensures var s := prefix + (p + ":" + (q + ":" + r));
      && |s| == 33 + |q| + |r| && s[..7] == prefix && s[31] == ':' == s[32 + |q|]
      && s[7..31] == p && s[32..32 + |q|] == q && s[33 + |q|..] == r
  {
  }

  /** Only hexadecimal digits and colons follow the prefix. */
  lemma AfterPrefix(c: Cipher, iv: seq<byte>, text: string, p: nat)
    requires text != "" && 7 <= p < |Encrypt(c, iv, text)|
    ensures var x := Encrypt(c, iv, text)[p]; IsHex(x) || x == ':'
  {
    assert Encrypt(c, iv, text)[p] == Payload(c, iv, text)[p - 7];
  }
}
