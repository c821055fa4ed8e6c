/** Reading `?page=` back from a query. */
module PageParam {
  import opened Options
  import opened Bytes
  import opened PageUrl

  const MAX_INT := 0x7fff_ffff_ffff_ffff

  /** One part of a query by the strict parser, which drops what does not decode
      and what holds a semicolon. */
  function Strict(part: Text): Option<Pair> {
    if part == [] || ';' in part then None
    else
      var (key, value) := Cut(part);
      match (Unescape(key, true), Unescape(value, true))
      case (Some(k), Some(v)) => Some((k, v))
      case _ => None
  }

  function StrictPairs(parts: seq<Text>): seq<Pair> {
    if parts == [] then []
    else (match Strict(parts[0]) case None => [] case Some(pair) => [pair]) + StrictPairs(parts[1..])
  }

  /** The first value of a key, or nothing. */
  function Get(pairs: seq<Pair>, key: Text): Text {
    if pairs == [] then [] else if pairs[0].0 == key then pairs[0].1 else Get(pairs[1..], key)
  }

  /** A decimal integer of 64 bits, with or without a sign. */
  function Atoi(s: Text): Option<int> {
    var signed := s != [] && s[0] in {'+', '-'};
    var digits := if signed then s[1..] else s;
    if digits == [] || !AllDigits(digits) then None
    else
      var magnitude: int := Numeral(digits);
      var n := if signed && s[0] == '-' then -magnitude else magnitude;
      if -MAX_INT - 1 <= n <= MAX_INT then Some(n) else None
  }

  /** The page a request asks for; anything but a positive integer reads as 1. */
  function Requested(query: Text): (page: nat)
    ensures 1 <= page <= MAX_INT
  {
    match Atoi(Get(StrictPairs(Split(query)), PAGE))
    case None => 1
    case Some(page) => if page < 1 then 1 else page
  }

  lemma NoSemicolon(pair: Pair)
    ensures ';' !in EncodedPair(pair)
  {
    EscapeAlphabet(pair.0);
    EscapeAlphabet(pair.1);
  }

  lemma CutOfEncoded(pair: Pair)
    ensures Cut(EncodedPair(pair)) == (PhpEscape(pair.0), PhpEscape(pair.1))
  {
    NoSeparators(pair.0);
    CutAt(PhpEscape(pair.0), PhpEscape(pair.1));
  }

  /** Strict, once the part has been cut. */
  lemma StrictOfCut(part: Text, key: Text, value: Text)
    requires part != [] && ';' !in part && Cut(part) == (key, value)
    requires Unescape(key, true).Some? && Unescape(value, true).Some?
    ensures Strict(part) == Some((Unescape(key, true).value, Unescape(value, true).value))
  {
  }

  lemma StrictRoundTrip(pair: Pair)
    ensures Strict(EncodedPair(pair)) == Some(pair)
  {
    NoSemicolon(pair);
    CutOfEncoded(pair);
    EscapeRoundTrip(pair.0, true);
    EscapeRoundTrip(pair.1, true);
    StrictOfCut(EncodedPair(pair), PhpEscape(pair.0), PhpEscape(pair.1));
  }

  /** The strict parser too reads an encoded query as the pairs it was made from. */
  lemma {:induction false} StrictPairsRoundTrip(pairs: seq<Pair>)
    requires pairs != []
    ensures StrictPairs(Split(Encoded(pairs))) == pairs
    decreases |pairs|
  {
    var part := EncodedPair(pairs[0]);
    StrictRoundTrip(pairs[0]);
    PairRoundTrip(pairs[0]);
    if |pairs| == 1 {
      SplitAt(part, []);
      assert StrictPairs([part]) == [pairs[0]] + StrictPairs([]);
    } else {
      SplitAt(part, Encoded(pairs[1..]));
      StrictPairsRoundTrip(pairs[1..]);
      var rest := Split(Encoded(pairs[1..]));
      assert ([part] + rest)[1..] == rest;
    }
  }

  lemma {:induction false} LastPageWins(pairs: seq<Pair>, value: Text)
    ensures Get(WithoutPage(pairs) + [(PAGE, value)], PAGE) == value
  {
    var kept := WithoutPage(pairs);
    if pairs != [] {
      LastPageWins(pairs[1..], value);
      var rest := WithoutPage(pairs[1..]);
      if pairs[0].0 == PAGE {
        assert kept == rest;
      } else {
        assert (kept + [(PAGE, value)])[1..] == rest + [(PAGE, value)];
      }
    }
  }

  /** A request for a built URL is a request for its page, whatever the caller's
      query held. */
  lemma BuiltPageIsRequested(query: Text, page: int)
    requires page <= MAX_INT
    ensures Requested(NewQuery(query, page)) == if page <= 0 then 1 else page
  {
    var wanted := if page <= 0 then 1 else page;
    StrictPairsRoundTrip(WithoutPage(Pairs(query)) + [(PAGE, PageOf(page))]);
    LastPageWins(Pairs(query), PageOf(page));
    DecimalIsNumeral(wanted);
    assert IsDigit(Decimal(wanted)[0]);
  }
}
