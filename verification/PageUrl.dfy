/** The paginator's URLs: the caller's query with `page` replaced and put last. */
module PageUrl {
  import opened Options
  import opened Bytes

  type Pair = (Text, Text)

  const PAGE: Text := "page"

  // ----- percent encoding -----

  /** The unreserved characters of RFC 3986 section 2.3. */
  predicate Unreserved(c: Byte) {
    'A' <= c <= 'Z' || 'a' <= c <= 'z' || '0' <= c <= '9' || c in {'-', '.', '_', '~'}
  }

  function Percent(c: Byte): Text {
    ['%', HexDigit(c as int / 16), HexDigit(c as int % 16)]
  }

  /** url.QueryEscape. */
  function QueryEscape(s: Text): Text {
    if s == [] then []
    else (if Unreserved(s[0]) then [s[0]] else if s[0] == ' ' then ['+'] else Percent(s[0])) + QueryEscape(s[1..])
  }

  function PlusToPercent(s: Text): Text {
    if s == [] then [] else (if s[0] == '+' then "%20" else [s[0]]) + PlusToPercent(s[1..])
  }

  function PhpEscape(s: Text): Text { PlusToPercent(QueryEscape(s)) }

  /** Percent decoding, with or without the form rule that `+` is a space. Fails
      on a `%` that two hexadecimal digits do not follow. */
  function Unescape(s: Text, plusIsSpace: bool): Option<Text>
    decreases |s|
  {
    if s == [] then Some([])
    else if s[0] == '%' then
      if |s| < 3 || !IsHex(s[1]) || !IsHex(s[2]) then None
      else
        match Unescape(s[3..], plusIsSpace)
        case None => None
        case Some(rest) => Some([(16 * HexValue(s[1]) + HexValue(s[2])) as char] + rest)
    else
      match Unescape(s[1..], plusIsSpace)
      case None => None
      case Some(rest) => Some([if s[0] == '+' && plusIsSpace then ' ' else s[0]] + rest)
  }

  // ----- splitting -----

  function Split(s: Text): (parts: seq<Text>)
    ensures parts != []
  {
    if s == [] then [[]]
    else
      var rest := Split(s[1..]);
      if s[0] == '&' then [[]] + rest else [[s[0]] + rest[0]] + rest[1..]
  }

  /** strings.Cut at the first `=`; without one the value is empty. */
  function Cut(part: Text): Pair {
    if part == [] then ([], [])
    else if part[0] == '=' then ([], part[1..])
    else var (key, value) := Cut(part[1..]); ([part[0]] + key, value)
  }

  function Or(decoded: Option<Text>, raw: Text): Text {
    match decoded case None => raw case Some(text) => text
  }

  /** One part of the query as the caller meant it; what does not decode is
      taken as it stands. */
  function Decoded(part: Text): Pair {
    var (key, value) := Cut(part);
    (Or(Unescape(key, true), key), Or(Unescape(value, true), value))
  }

  function DecodedAll(parts: seq<Text>): seq<Pair> {
    if parts == [] then []
    else (if parts[0] == [] then [] else [Decoded(parts[0])]) + DecodedAll(parts[1..])
  }

  /** All the pairs of a query, in order. */
  function Pairs(query: Text): seq<Pair> { DecodedAll(Split(query)) }

  function WithoutPage(pairs: seq<Pair>): seq<Pair> {
    if pairs == [] then [] else (if pairs[0].0 == PAGE then [] else [pairs[0]]) + WithoutPage(pairs[1..])
  }

  // ----- joining -----

  function EncodedPair(pair: Pair): Text { PhpEscape(pair.0) + "=" + PhpEscape(pair.1) }

  function Encoded(pairs: seq<Pair>): Text {
    if pairs == [] then []
    else if |pairs| == 1 then EncodedPair(pairs[0])
    else EncodedPair(pairs[0]) + "&" + Encoded(pairs[1..])
  }

  function PageOf(page: int): Text { Decimal(if page <= 0 then 1 else page) }

  function NewQuery(rawQuery: Text, page: int): Text {
    Encoded(WithoutPage(Pairs(rawQuery)) + [(PAGE, PageOf(page))])
  }

  // ----- what encoding keeps -----

  function EscapedByte(c: Byte): Text {
    if Unreserved(c) then [c] else Percent(c)
  }

  ghost predicate Without(s: Text, c: Byte) { forall i :: 0 <= i < |s| ==> s[i] != c }

  lemma {:induction false} PlusToPercentConcat(a: Text, b: Text)
    ensures PlusToPercent(a + b) == PlusToPercent(a) + PlusToPercent(b)
  {
    if a == [] {
      assert a + b == b;
    } else {
      assert (a + b)[1..] == a[1..] + b;
      PlusToPercentConcat(a[1..], b);
    }
  }

  lemma {:induction false} PlusFree(s: Text)
    requires Without(s, '+')
    ensures PlusToPercent(s) == s
  {
    if s != [] {
      PlusFree(s[1..]);
      assert [s[0]] + s[1..] == s;
    }
  }

  /** rawurlencode byte by byte. */
  lemma EscapeHead(s: Text)
    requires s != []
    ensures PhpEscape(s) == EscapedByte(s[0]) + PhpEscape(s[1..])
  {
    var head := if Unreserved(s[0]) then [s[0]] else if s[0] == ' ' then ['+'] else Percent(s[0]);
    PlusToPercentConcat(head, QueryEscape(s[1..]));
    if s[0] == ' ' {
      assert ['+'][1..] == [];
      assert PlusToPercent(['+']) == "%20";
    } else {
      PlusFree(EscapedByte(s[0]));
    }
  }

  lemma UnescapeHead(c: Byte, rest: Text, plusIsSpace: bool)
    requires Unescape(rest, plusIsSpace).Some?
    ensures Unescape(EscapedByte(c) + rest, plusIsSpace) == Some([c] + Unescape(rest, plusIsSpace).value)
  {
    var s := EscapedByte(c) + rest;
    if Unreserved(c) {
      assert s[1..] == rest;
    } else {
      assert s[3..] == rest && s[1] == HexDigit(c as int / 16) && s[2] == HexDigit(c as int % 16);
    }
  }

  /** Both decoders, the form one and the one of RFC 3986 section 2.1, undo the
      encoding of any bytes. */
  lemma {:induction false} EscapeRoundTrip(s: Text, plusIsSpace: bool)
    ensures Unescape(PhpEscape(s), plusIsSpace) == Some(s)
  {
    if s != [] {
      EscapeRoundTrip(s[1..], plusIsSpace);
      EscapeHead(s);
      UnescapeHead(s[0], PhpEscape(s[1..]), plusIsSpace);
      assert [s[0]] + s[1..] == s;
    }
  }

  /** Encoded text holds only unreserved characters and percent triplets. */
  lemma {:induction false} EscapeAlphabet(s: Text)
    ensures forall i :: 0 <= i < |PhpEscape(s)| ==> Unreserved(PhpEscape(s)[i]) || PhpEscape(s)[i] == '%'
  {
    if s != [] {
      EscapeHead(s);
      EscapeAlphabet(s[1..]);
    }
  }

  lemma {:induction false} SplitAt(part: Text, more: Text)
    requires Without(part, '&')
    ensures Split(part) == [part]
    ensures Split(part + "&" + more) == [part] + Split(more)
  {
    var s := part + "&" + more;
    if part == [] {
      assert s[1..] == more;
    } else {
      SplitAt(part[1..], more);
      assert s[1..] == part[1..] + "&" + more;
      assert [part[0]] + part[1..] == part;
      assert [part[1..]][1..] + Split(more) == ([part[1..]] + Split(more))[1..];
    }
  }

  lemma {:induction false} CutAt(key: Text, value: Text)
    requires Without(key, '=')
    ensures Cut(key + "=" + value) == (key, value)
  {
    var s := key + "=" + value;
    if key == [] {
      assert s[1..] == value;
    } else {
      CutAt(key[1..], value);
      assert s[1..] == key[1..] + "=" + value;
      assert [key[0]] + key[1..] == key;
    }
  }

  lemma NoSeparators(s: Text)
    ensures Without(PhpEscape(s), '&') && Without(PhpEscape(s), '=')
  {
    EscapeAlphabet(s);
  }

  lemma PairRoundTrip(pair: Pair)
    ensures Decoded(EncodedPair(pair)) == pair && EncodedPair(pair) != [] && Without(EncodedPair(pair), '&')
  {
    NoSeparators(pair.0);
    NoSeparators(pair.1);
    CutAt(PhpEscape(pair.0), PhpEscape(pair.1));
    EscapeRoundTrip(pair.0, true);
    EscapeRoundTrip(pair.1, true);
  }

  /** Decoding what was encoded gives the same pairs in the same order. */
  lemma {:induction false} PairsRoundTrip(pairs: seq<Pair>)
    requires pairs != []
    ensures Pairs(Encoded(pairs)) == pairs
    decreases |pairs|
  {
    var part := EncodedPair(pairs[0]);
    PairRoundTrip(pairs[0]);
    if |pairs| == 1 {
      SplitAt(part, []);
      assert DecodedAll([part]) == [Decoded(part)] + DecodedAll([]);
    } else {
      SplitAt(part, Encoded(pairs[1..]));
      PairsRoundTrip(pairs[1..]);
      var rest := Split(Encoded(pairs[1..]));
      assert ([part] + rest)[1..] == rest;
    }
  }

  /** The new query decodes to the caller's pairs, in order and without `page`,
      then the new page last. */
  lemma QueryKept(rawQuery: Text, page: int)
    ensures Pairs(NewQuery(rawQuery, page)) == WithoutPage(Pairs(rawQuery)) + [(PAGE, PageOf(page))]
  {
    PairsRoundTrip(WithoutPage(Pairs(rawQuery)) + [(PAGE, PageOf(page))]);
  }

  lemma {:induction false} WithoutPageTwice(pairs: seq<Pair>, page: Text)
    ensures WithoutPage(WithoutPage(pairs) + [(PAGE, page)]) == WithoutPage(pairs)
  {
    var kept := WithoutPage(pairs);
    if pairs == [] {
      assert kept + [(PAGE, page)] == [(PAGE, page)];
      assert [(PAGE, page)][1..] == [];
    } else {
      WithoutPageTwice(pairs[1..], page);
      var rest := WithoutPage(pairs[1..]);
      if pairs[0].0 == PAGE {
        assert kept == rest;
      } else {
        assert kept == [pairs[0]] + rest;
        assert (kept + [(PAGE, page)])[1..] == rest + [(PAGE, page)];
      }
    }
  }

  /** Going on from a built query to another page is the same as building that
      page from the original query. */
  lemma RebuildFromOwn(rawQuery: Text, page: int, other: int)
    ensures NewQuery(NewQuery(rawQuery, page), other) == NewQuery(rawQuery, other)
  {
    QueryKept(rawQuery, page);
    WithoutPageTwice(Pairs(rawQuery), PageOf(page));
  }

  // ----- the loops -----

  lemma {:induction false} DecodedAllAppend(parts: seq<Text>, part: Text)
    ensures DecodedAll(parts + [part]) == DecodedAll(parts) + (if part == [] then [] else [Decoded(part)])
  {
    if parts == [] {
      assert parts + [part] == [part];
      assert [part][1..] == [];
    } else {
      assert (parts + [part])[1..] == parts[1..] + [part];
      DecodedAllAppend(parts[1..], part);
    }
  }

  lemma {:induction false} WithoutPageConcat(a: seq<Pair>, b: seq<Pair>)
    ensures WithoutPage(a + b) == WithoutPage(a) + WithoutPage(b)
  {
    if a == [] {
      assert a + b == b;
    } else {
      assert (a + b)[1..] == a[1..] + b;
      WithoutPageConcat(a[1..], b);
    }
  }

  function Join(parts: seq<Text>): Text {
    if parts == [] then [] else if |parts| == 1 then parts[0] else parts[0] + "&" + Join(parts[1..])
  }

  lemma {:induction false} JoinIsEncoded(parts: seq<Text>, pairs: seq<Pair>)
    requires |parts| == |pairs| && forall i :: 0 <= i < |pairs| ==> parts[i] == EncodedPair(pairs[i])
    ensures Join(parts) == Encoded(pairs)
    decreases |pairs|
  {
    if |pairs| > 1 {
      JoinIsEncoded(parts[1..], pairs[1..]);
    }
  }

  /** The query's pairs that are not `page`, by the code's own loop. */
  method KeptPairs(rawQuery: Text) returns (kept: seq<Pair>)
    ensures kept == WithoutPage(Pairs(rawQuery))
  {
    kept := [];
    if rawQuery == [] {
      var none: seq<Text> := [[]];
      assert Split(rawQuery) == none && none[1..] == [];
      return;
    }
    var parts := Split(rawQuery);
    for i := 0 to |parts|
      invariant kept == WithoutPage(DecodedAll(parts[..i]))
    {
      var part := parts[i];
      assert parts[..i + 1] == parts[..i] + [part];
      DecodedAllAppend(parts[..i], part);
      WithoutPageConcat(DecodedAll(parts[..i]), if part == [] then [] else [Decoded(part)]);
      if part == [] {
        continue;
      }
      var (key, value) := Cut(part);
      var decodedKey := Or(Unescape(key, true), key);
      if decodedKey == PAGE {
        continue;
      }
      var decodedValue := [];
      if value != [] {
        decodedValue := Or(Unescape(value, true), value);
      }
      kept := kept + [(decodedKey, decodedValue)];
    }
    assert parts[..|parts|] == parts;
  }

  method EncodedParts(kept: seq<Pair>) returns (parts: seq<Text>)
    ensures Join(parts) == Encoded(kept)
  {
    parts := [];
    for i := 0 to |kept|
      invariant |parts| == i
      invariant forall k :: 0 <= k < i ==> parts[k] == EncodedPair(kept[k])
    {
      var part := PhpEscape(kept[i].0) + "=" + PhpEscape(kept[i].1);
      assert part == EncodedPair(kept[i]);
      parts := parts + [part];
    }
    JoinIsEncoded(parts, kept);
  }

  method BuildPageUrl(basePath: Text, rawQuery: Text, page: int) returns (url: Text)
    ensures url == basePath + (if '?' in basePath then "&" else "?") + NewQuery(rawQuery, page)
  {
    var target := if page <= 0 then 1 else page;
    var kept := KeptPairs(rawQuery);
    kept := kept + [(PAGE, Decimal(target))];
    var parts := EncodedParts(kept);
    var separator: Text := if '?' in basePath then "&" else "?";
    url := basePath + separator + Join(parts);
  }
}
