/** The one-off script that looks for doubly encrypted passport numbers and removes one layer. */
module RepairScript {
  import opened EncryptionFormat

  // ----- SQL LIKE -----------------------------------------------------------------------

  /** Case folding of a case-insensitive collation, for ASCII letters. */
  function Fold(c: char): char {
    if 'A' <= c <= 'Z' then c - 'A' + 'a' else c
  }

  predicate Like(pattern: string, s: string)
    decreases |pattern| + |s|
  {
    if pattern == "" then s == ""
    else if pattern[0] == '%' then Like(pattern[1..], s) || (s != "" && Like(pattern, s[1..]))
    else s != "" && (pattern[0] == '_' || Fold(pattern[0]) == Fold(s[0])) && Like(pattern[1..], s[1..])
  }

  /** The detector of the script. */
  const DETECTOR := "enc:v1:%enc:v1:%"

  /** If a pattern with a % in front matches, its remainder matches some suffix. */
  lemma {:induction false} LikeSuffix(pattern: string, s: string) returns (k: nat)
    requires pattern != "" && pattern[0] == '%' && Like(pattern, s)
    ensures k <= |s| && Like(pattern[1..], s[k..])
    decreases |s|
  {
    if Like(pattern[1..], s) {
      k := 0;
      assert s[0..] == s;
    } else {
      k := LikeSuffix(pattern, s[1..]);
      assert s[1..][k..] == s[k + 1..];
      k := k + 1;
    }
  }

  /** A literal prefix of the pattern must be matched character by character. */
  lemma {:induction false} LikeLiteral(literal: string, rest: string, s: string)
    requires Like(literal + rest, s) && '%' !in literal && '_' !in literal
    ensures |literal| <= |s| && Like(rest, s[|literal|..])
    ensures forall k :: 0 <= k < |literal| ==> Fold(literal[k]) == Fold(s[k])
  {
    if literal == "" {
      assert literal + rest == rest && s[0..] == s;
    } else {
      assert literal[0] in literal;
      assert (literal + rest)[1..] == literal[1..] + rest;
      LikeLiteral(literal[1..], rest, s[1..]);
      assert s[1..][|literal| - 1..] == s[|literal|..];
      assert forall k :: 0 < k < |literal| ==> literal[k] == literal[1..][k - 1] && s[k] == s[1..][k - 1];
    }
  }

  lemma {:induction false} LikeLiteralHolds(literal: string, rest: string, s: string)
    requires '%' !in literal && '_' !in literal && |literal| <= |s| && Like(rest, s[|literal|..])
    requires forall k :: 0 <= k < |literal| ==> Fold(literal[k]) == Fold(s[k])
    ensures Like(literal + rest, s)
  {
    if literal == "" {
      assert literal + rest == rest && s[0..] == s;
    } else {
      assert literal[0] in literal && Fold(literal[0]) == Fold(s[0]);
      assert (literal + rest)[1..] == literal[1..] + rest;
      assert s[1..][|literal| - 1..] == s[|literal|..];
      LikeLiteralHolds(literal[1..], rest, s[1..]);
    }
  }

  lemma {:induction false} LikeSuffixHolds(rest: string, s: string, k: nat)
    requires k <= |s| && Like(rest, s[k..])
    ensures Like("%" + rest, s)
    decreases k
  {
    assert ("%" + rest)[1..] == rest;
    if k == 0 {
      assert s[0..] == s;
    } else {
      assert s[1..][k - 1..] == s[k..];
      LikeSuffixHolds(rest, s[1..], k - 1);
    }
  }

  /** The marker, in any letter case, stands at position p. */
  ghost predicate MarkerAt(s: string, p: nat) {
    p + 7 <= |s| && forall i :: 0 <= i < 7 ==> Fold(s[p + i]) == "enc:v1:"[i]
  }

  /** The marker stands at p exactly if the pattern's literal matches there, character by character. */
  lemma MarkerLiteral(s: string, p: nat)
    requires p <= |s|
    ensures MarkerAt(s, p) <==>
      |MARKER| <= |s[p..]| && forall k :: 0 <= k < |MARKER| ==> Fold(MARKER[k]) == Fold(s[p..][k])
    ensures '%' !in MARKER && '_' !in MARKER && |MARKER| == 7
  {
    assert MARKER == ['e', 'n', 'c', ':', 'v', '1', ':'] == "enc:v1:";
    assert forall i :: 0 <= i < 7 ==> Fold(MARKER[i]) == MARKER[i] == "enc:v1:"[i];
    assert |s| >= p + 7 ==> forall i :: 0 <= i < 7 ==> s[p..][i] == s[p + i];
  }

  lemma DetectorParts()
    ensures DETECTOR == MARKER + ("%" + (MARKER + "%"))
  {
  }

  lemma DetectorFinds(s: string) returns (p: nat)
    requires Like(DETECTOR, s)
    ensures MarkerAt(s, 0) && p >= 7 && MarkerAt(s, p)
  {
    hide *;
    DetectorParts();
    MarkerLiteral(s, 0);
    var rest := "%" + (MARKER + "%");
    assert s[0..] == s && rest[1..] == MARKER + "%";
    LikeLiteral(MARKER, rest, s);
    var k := LikeSuffix(rest, s[7..]);
    assert s[7..][k..] == s[7 + k..];
    LikeLiteral(MARKER, "%", s[7 + k..]);
    MarkerLiteral(s, 7 + k);
    p := 7 + k;
  }

  lemma MarkersAreFound(s: string, p: nat)
    requires MarkerAt(s, 0) && p >= 7 && MarkerAt(s, p)
    ensures Like(DETECTOR, s)
  {
    assert p + 7 <= |s|;
    hide *;
    DetectorParts();
    MarkerLiteral(s, 0);
    MarkerLiteral(s, p);
    assert s[0..] == s && s[7..][p - 7..] == s[p..] && s[p..][7..] == s[p + 7..];
    AnyMatchesRest(s[p + 7..]);
    LikeLiteralHolds(MARKER, "%", s[p..]);
    LikeSuffixHolds(MARKER + "%", s[7..], p - 7);
    LikeLiteralHolds(MARKER, "%" + (MARKER + "%"), s);
  }

  /** The detector selects exactly the strings that start with the marker and contain it again after that. */
  lemma DetectorIff(s: string)
    ensures Like(DETECTOR, s) <==> MarkerAt(s, 0) && exists p: nat :: p >= 7 && MarkerAt(s, p)
  {
    hide *;
    if Like(DETECTOR, s) {
      var p := DetectorFinds(s);
    }
    if MarkerAt(s, 0) && exists p: nat :: p >= 7 && MarkerAt(s, p) {
      var p: nat :| p >= 7 && MarkerAt(s, p);
      MarkersAreFound(s, p);
    }
  }

  lemma AnyMatchesRest(s: string)
    ensures Like("%", s)
  {
    LikeSuffixHolds("", s, |s|);
    assert "%" + "" == "%";
  }

  /** The marker of one ciphertext never contains a second one: the detector selects no layered string at all. */
  lemma DetectorMissesLayers(c: Cipher, k: nat, plain: string, s: string)
    requires Layered(c, k, plain, s) && k > 0
    ensures !Like(DETECTOR, s)
  {
    hide Like, Encrypt, Layered;
    if Like(DETECTOR, s) {
      var p := DetectorFinds(s);
      LayersOfEmpty(c, k, plain, s);
      var iv, inner := OuterLayer(c, k, plain, s);
      assert Fold(s[p + 1]) == "enc:v1:"[1] == 'n';
      AfterPrefix(c, iv, inner, p + 1);
    }
  }

  /** The marker stands at the very front of a layered string and nowhere else, in any letter case. */
  lemma MarkerOnce(c: Cipher, k: nat, plain: string, s: string, p: nat)
    requires Layered(c, k, plain, s) && k > 0 && plain != "" && p + 7 <= |s|
    ensures (forall i :: 0 <= i < 7 ==> Fold(s[p + i]) == MARKER[i]) <==> p == 0
  {
    hide Encrypt, Layered;
    var iv, inner := OuterLayer(c, k, plain, s);
    EncryptedIsMarked(c, iv, inner);
    var m := MARKER;
    assert m == ['e', 'n', 'c', ':', 'v', '1', ':'];
    assert forall i :: 0 <= i < 7 ==> s[i] == s[..7][i] == m[i];
    if p >= 6 {
      AfterPrefix(c, iv, inner, p + 1);
    }
    if p > 0 {
      assert Fold(s[p + 1]) != m[1];
    }
  }

  // ----- The repair loop --------------------------------------------------------------------

  /** What the script leaves in a column value. */
  function Repaired(c: Cipher, value: string): string {
    if !Like(DETECTOR, value) || value == "" then value
    else match Decrypt(c, value) case Plain(text) => text case Failed => value
  }

  class PassengerTable {
    var passportNo: map<int, string>

    /** The query answers with the rows the detector selects, in some order, each once. */
    ghost predicate Selected(ids: seq<int>)
      reads this
    {
      && (forall i, j :: 0 <= i < j < |ids| ==> ids[i] != ids[j])
      && (forall id :: id in ids <==> id in passportNo && Like(DETECTOR, passportNo[id]))
    }

    /** Read the selected rows once, then write each decrypted value back to its own row. */
    method Repair(c: Cipher, ids: seq<int>)
      requires Selected(ids)
      modifies this
      ensures passportNo.Keys == old(passportNo.Keys)
      ensures forall id :: id in passportNo ==> passportNo[id] == Repaired(c, old(passportNo[id]))
    {
      hide Like, Decrypt;
      var rows := passportNo;
      var i := 0;
      while i < |ids|
        invariant 0 <= i <= |ids| && passportNo.Keys == rows.Keys
        invariant forall id :: id in rows && id !in ids[..i] ==> passportNo[id] == rows[id]
        invariant forall k :: 0 <= k < i ==> ids[k] in rows && passportNo[ids[k]] == Repaired(c, rows[ids[k]])
      {
        var id := ids[i];
        assert id in ids && id !in ids[..i] && ids[..i + 1] == ids[..i] + [id];
        var value := rows[id];
        if value != "" {
          var decrypted := Decrypt(c, value);
          if decrypted.Plain? {
            passportNo := passportNo[id := decrypted.text];
          }
        }
        i := i + 1;
      }
      assert ids[..i] == ids;
    }
  }

  /** What the script leaves: the decrypted text of a selected value that decrypts, else the value itself. */
  lemma RepairedMeaning(c: Cipher, value: string)
    ensures (MarkerAt(value, 0) && exists p: nat :: p >= 7 && MarkerAt(value, p)) && Decrypt(c, value).Plain? ==>
      Repaired(c, value) == Decrypt(c, value).text
    ensures !((MarkerAt(value, 0) && exists p: nat :: p >= 7 && MarkerAt(value, p)) && Decrypt(c, value).Plain?) ==>
      Repaired(c, value) == value
  {
    hide Like, Decrypt;
    DetectorIff(value);
    if MarkerAt(value, 0) { assert |value| >= 7; }
  }

  /** On a column of genuine ciphertexts, however many layers each has, the script changes nothing. */
  lemma RepairIsNoOp(c: Cipher, k: nat, plain: string, s: string)
    requires Layered(c, k, plain, s) && k > 0
    ensures Repaired(c, s) == s
  {
    DetectorMissesLayers(c, k, plain, s);
  }

  /** What the repair was meant to do would be right: decrypting a doubly (or more) encrypted value once
      leaves a value with one layer less, never the plain text. */
  lemma IntendedRepair(c: Cipher, k: nat, plain: string, s: string)
    requires c.Lawful() && Layered(c, k + 1, plain, s) && k > 0 && plain != ""
    ensures Decrypt(c, s).Plain? && Layered(c, k, plain, Decrypt(c, s).text) && "enc:" <= Decrypt(c, s).text
  {
    hide Encrypt, Decrypt, Layered;
    RemoveLayer(c, k + 1, plain, s);
    var iv, inner := OuterLayer(c, k, plain, Decrypt(c, s).text);
    EncryptedIsMarked(c, iv, inner);
  }
}
