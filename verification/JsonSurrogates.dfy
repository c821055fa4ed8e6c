/** Characters escaped as a surrogate pair, RFC 8259 section 7. */
module JsonSurrogates {
  import opened Bytes
  import JsonValue
  import opened JsonText
  import opened JsonSyntax

  predicate IsHigh(c: Char)
    requires IsChar(c)
  {
    c.Unicode? && 0xd800 <= Code(c.digits) <= 0xdbff
  }

  predicate IsLow(c: Char)
    requires IsChar(c)
  {
    c.Unicode? && 0xdc00 <= Code(c.digits) <= 0xdfff
  }

  predicate IsPair(high: Char, low: Char)
    requires IsChar(high) && IsChar(low)
  {
    IsHigh(high) && IsLow(low)
  }

  /** The one character of a pair, in UTF-8. */
  function Wide(high: Char, low: Char): (text: Text)
    requires IsChar(high) && IsChar(low) && IsPair(high, low)
    ensures |text| == 4
  {
    var code := 0x10000 + (Code(high.digits) - 0xd800) * 0x400 + (Code(low.digits) - 0xdc00);
    [(0xf0 + code / 0x40000) as char, (0x80 + code / 4096 % 64) as char,
     (0x80 + code / 64 % 64) as char, (0x80 + code % 64) as char]
  }

  /** What a string means when a pair is one character. */
  function Meaning(cs: seq<Char>): Text
    requires AreChars(cs)
  {
    if cs == [] then []
    else if |cs| > 1 && IsPair(cs[0], cs[1]) then Wide(cs[0], cs[1]) + Meaning(cs[2..])
    else CharValue(cs[0]) + Meaning(cs[1..])
  }

  ghost predicate HasPair(cs: seq<Char>)
    requires AreChars(cs)
  {
    exists i :: 0 < i < |cs| && IsPair(cs[i - 1], cs[i])
  }

  lemma NoPairAhead(cs: seq<Char>)
    requires cs != [] && AreChars(cs) && !(|cs| > 1 && IsPair(cs[0], cs[1]))
    ensures HasPair(cs) <==> HasPair(cs[1..])
  {
    if i :| 0 < i < |cs| && IsPair(cs[i - 1], cs[i]) {
      assert 0 < i - 1 < |cs[1..]| && IsPair(cs[1..][i - 2], cs[1..][i - 1]);
    }
    if i :| 0 < i < |cs[1..]| && IsPair(cs[1..][i - 1], cs[1..][i]) {
      assert IsPair(cs[i], cs[i + 1]);
    }
  }

  lemma {:induction false} PairsLoseLength(cs: seq<Char>)
    requires AreChars(cs)
    ensures |Meaning(cs)| <= |TextOf(cs)|
    ensures HasPair(cs) ==> |Meaning(cs)| < |TextOf(cs)|
    ensures !HasPair(cs) ==> Meaning(cs) == TextOf(cs)
  {
    if |cs| > 1 && IsPair(cs[0], cs[1]) {
      PairsLoseLength(cs[2..]);
      assert cs[1..][1..] == cs[2..] && cs[1..][0] == cs[1];
      assert TextOf(cs) == CharValue(cs[0]) + (CharValue(cs[1]) + TextOf(cs[2..]));
    } else if cs != [] {
      NoPairAhead(cs);
      PairsLoseLength(cs[1..]);
    }
  }

  /** The decoder reads a string as what it means exactly when no character is
      escaped as a pair; a pair it reads as U+FFFD twice. */
  lemma ReadAsMeant(cs: seq<Char>)
    requires AreChars(cs)
    ensures Value(Spell(String(cs), [])) == Ok(JsonValue.Str(Meaning(cs)), []) <==> !HasPair(cs)
  {
    TreeDecodes(String(cs), []);
    PairsLoseLength(cs);
  }

  lemma PairText(high: Char, low: Char, text: Text)
    requires high == Unicode("d83d") && low == Unicode("de00") && text == "\"\\ud83d\\ude00\""
    ensures Spell(String([high, low]), []) == text
  {
    assert [high, low][1..] == [low];
    assert CharsText([low], []) == CharText(low) + CharsText([], []);
    assert CharsText([high, low], []) == CharText(high) + CharsText([low], []);
  }

  lemma PairValue(high: Char, low: Char)
    requires IsChar(high) && IsChar(low) && IsPair(high, low)
    ensures AreChars([high, low]) && TextOf([high, low]) == REPLACEMENT + REPLACEMENT
    ensures Meaning([high, low]) == Wide(high, low)
  {
    var cs := [high, low];
    assert cs[1..] == [low] && cs[2..] == [];
    assert TextOf([low]) == CharValue(low) + TextOf([]);
    assert TextOf(cs) == CharValue(high) + TextOf([low]);
    assert Meaning(cs) == Wide(high, low) + Meaning([]);
  }

  lemma FaceIsPair(high: Char, low: Char)
    requires high == Unicode("d83d") && low == Unicode("de00")
    ensures IsChar(high) && IsChar(low) && IsPair(high, low)
    ensures Wide(high, low) == [0xf0 as char, 0x9f as char, 0x98 as char, 0x80 as char]
  {
    assert Code(high.digits) == 0xd83d && Code(low.digits) == 0xde00;
  }

  /** The face U+1F600, escaped as RFC 8259 section 7 says, is read as U+FFFD twice. */
  lemma FaceReadTwice(high: Char, low: Char, text: Text)
    requires high == Unicode("d83d") && low == Unicode("de00") && text == "\"\\ud83d\\ude00\""
    ensures Decode(text) == Ok(JsonValue.Str(REPLACEMENT + REPLACEMENT), [])
    ensures AreChars([high, low]) && Meaning([high, low]) == [0xf0 as char, 0x9f as char, 0x98 as char, 0x80 as char]
  {
    FaceIsPair(high, low);
    PairValue(high, low);
    PairText(high, low, text);
    DocumentDecodes([], String([high, low]), []);
    assert [] + text == text;
  }
}
