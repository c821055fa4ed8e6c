/** The encoder that writes JSON the way the legacy application does, and the
    decoder reading it back. */
module JsonPrinter {
  import opened Options
  import opened Bytes
  import opened JsonText
  import opened JsonSyntax

  // ----- UTF-8 -----

  function At(s: Text, i: nat): int { if i < |s| then s[i] as int else 0 }

  predicate Continues(s: Text, i: nat) { 0x80 <= At(s, i) <= 0xbf }

  datatype Rune = Rune(code: nat, size: nat)

  /** The character of several bytes that starts here, if one does. */
  function DecodeRune(s: Text): (rune: Option<Rune>)
    requires s != [] && s[0] as int >= 0x80
    ensures rune.Some? ==> 2 <= rune.value.size <= 4 && rune.value.size <= |s|
    ensures rune.Some? ==> (rune.value.size == 4 <==> rune.value.code > 0xffff)
    ensures rune.Some? ==> 0x80 <= rune.value.code <= 0x10ffff
  {
    var a, b, c, d := At(s, 0), At(s, 1), At(s, 2), At(s, 3);
    if 0xc2 <= a <= 0xdf && Continues(s, 1) then
      Some(Rune((a - 0xc0) * 64 + (b - 0x80), 2))
    else if 0xe0 <= a <= 0xef && Continues(s, 1) && Continues(s, 2) &&
            (a == 0xe0 ==> b >= 0xa0) && (a == 0xed ==> b <= 0x9f) then
      Some(Rune((a - 0xe0) * 4096 + (b - 0x80) * 64 + (c - 0x80), 3))
    else if 0xf0 <= a <= 0xf4 && Continues(s, 1) && Continues(s, 2) && Continues(s, 3) &&
            (a == 0xf0 ==> b >= 0x90) && (a == 0xf4 ==> b <= 0x8f) then
      Some(Rune((a - 0xf0) * 262144 + (b - 0x80) * 4096 + (c - 0x80) * 64 + (d - 0x80), 4))
    else None
  }

  /** Valid UTF-8 without characters of four bytes. */
  predicate IsBasic(s: Text)
    decreases |s|
  {
    if s == [] then true
    else if s[0] as int < 0x80 then IsBasic(s[1..])
    else match DecodeRune(s)
      case None => false
      case Some(rune) => rune.size < 4 && IsBasic(s[rune.size..])
  }

  // ----- strings -----

  function LowerHex(n: nat): Byte
    requires n < 16
  {
    if n < 10 then DigitOf(n) else (n - 10 + 'a' as int) as char
  }

  function Hex4(code: nat): Text
    requires code <= 0xffff
  {
    var a, b, c := code / 16, code / 16 / 16, code / 16 / 16 / 16;
    [LowerHex(c % 16), LowerHex(b % 16), LowerHex(a % 16), LowerHex(code % 16)]
  }

  function AsciiChar(c: Byte): Char
    requires c as int < 0x80
  {
    if c in {'"', '\\', '/'} then Short(c)
    else if c as int == 8 then Short('b')
    else if c as int == 12 then Short('f')
    else if c == '\n' then Short('n')
    else if c == '\r' then Short('r')
    else if c == '\t' then Short('t')
    else if c as int < 0x20 then Unicode("00" + [LowerHex(c as int / 16), LowerHex(c as int % 16)])
    else Raw(c)
  }

  function Units(high: nat, low: nat): seq<Char>
    requires high <= 0xffff && low <= 0xffff
  {
    [Unicode(Hex4(high)), Unicode(Hex4(low))]
  }

  /** How one character is written: a wide one as a surrogate pair. */
  function RuneChars(code: nat): seq<Char>
    requires code <= 0x10ffff
  {
    if code <= 0xffff then [Unicode(Hex4(code))]
    else Units(0xd800 + (code - 0x10000) / 0x400, 0xdc00 + (code - 0x10000) % 0x400)
  }

  const REPLACEMENT_CHARS: seq<Char> := [Raw(0xef as char), Raw(0xbf as char), Raw(0xbd as char)]

  /** The characters a text is written as. */
  function Escaped(s: Text): seq<Char>
    decreases |s|
  {
    if s == [] then []
    else if s[0] as int < 0x80 then [AsciiChar(s[0])] + Escaped(s[1..])
    else match DecodeRune(s)
      case None => REPLACEMENT_CHARS + Escaped(s[1..])
      case Some(rune) => RuneChars(rune.code) + Escaped(s[rune.size..])
  }

  /** What the text is read back as: an invalid byte becomes U+FFFD, and a
      character of four bytes becomes U+FFFD twice. */
  function Echo(s: Text): Text
    decreases |s|
  {
    if s == [] then []
    else if s[0] as int < 0x80 then [s[0]] + Echo(s[1..])
    else match DecodeRune(s)
      case None => REPLACEMENT + Echo(s[1..])
      case Some(rune) =>
        (if rune.size == 4 then REPLACEMENT + REPLACEMENT else s[..rune.size]) + Echo(s[rune.size..])
  }

  lemma LowerHexValue(n: nat)
    requires n < 16
    ensures IsHex(LowerHex(n)) && HexValue(LowerHex(n)) == n
  {
  }

  lemma HexDigitsOf(code: nat, a: nat, b: nat, c: nat)
    requires code <= 0xffff && a == code / 16 && b == a / 16 && c == b / 16
    ensures c < 16 && code == 4096 * c + 256 * (b % 16) + 16 * (a % 16) + code % 16
  {
    assert b == 16 * c + b % 16 && a == 16 * b + a % 16 && code == 16 * a + code % 16;
  }

  lemma Hex4Code(code: nat)
    requires code <= 0xffff
    ensures IsChar(Unicode(Hex4(code))) && Code(Hex4(code)) == code
  {
    var a, b, c := code / 16, code / 16 / 16, code / 16 / 16 / 16;
    HexDigitsOf(code, a, b, c);
    LowerHexValue(c % 16);
    LowerHexValue(b % 16);
    LowerHexValue(a % 16);
    LowerHexValue(code % 16);
  }

  lemma AsciiValue(c: Byte)
    requires c as int < 0x80
    ensures IsChar(AsciiChar(c)) && CharValue(AsciiChar(c)) == [c]
  {
    if c as int < 0x20 {
      LowerHexValue(c as int / 16);
      LowerHexValue(c as int % 16);
      LowerHexValue(0);
    }
  }

  /** A character of the basic plane is encoded as the bytes it was decoded from. */
  lemma RuneBytes(s: Text)
    requires s != [] && s[0] as int >= 0x80 && DecodeRune(s).Some? && DecodeRune(s).value.size < 4
    ensures Utf8(DecodeRune(s).value.code) == s[..DecodeRune(s).value.size]
  {
    var rune := DecodeRune(s).value;
    if rune.size == 2 {
      assert rune.code / 64 == At(s, 0) - 0xc0 && rune.code % 64 == At(s, 1) - 0x80;
    } else {
      var high := (At(s, 0) - 0xe0) * 64 + (At(s, 1) - 0x80);
      assert rune.code / 64 == high && rune.code % 64 == At(s, 2) - 0x80;
      assert rune.code / 4096 == At(s, 0) - 0xe0 && high % 64 == At(s, 1) - 0x80;
    }
  }

  lemma OneUnicode(code: nat)
    requires code <= 0xffff
    ensures AreChars([Unicode(Hex4(code))]) && TextOf([Unicode(Hex4(code))]) == Utf8(code)
  {
    Hex4Code(code);
    var c := Unicode(Hex4(code));
    assert TextOf([c]) == CharValue(c) + TextOf([]);
  }

  lemma RuneValue(s: Text)
    requires s != [] && s[0] as int >= 0x80 && DecodeRune(s).Some?
    ensures var rune := DecodeRune(s).value;
      && AreChars(RuneChars(rune.code))
      && TextOf(RuneChars(rune.code)) == if rune.size == 4 then REPLACEMENT + REPLACEMENT else s[..rune.size]
  {
    var rune := DecodeRune(s).value;
    if rune.size < 4 {
      OneUnicode(rune.code);
      RuneBytes(s);
    } else {
      WideValue(rune.code);
    }
  }

  lemma SurrogatesValue(high: nat, low: nat)
    requires IsSurrogate(high) && IsSurrogate(low)
    ensures AreChars(Units(high, low)) && TextOf(Units(high, low)) == REPLACEMENT + REPLACEMENT
  {
    OneUnicode(high);
    OneUnicode(low);
    TextOfConcat([Unicode(Hex4(high))], [Unicode(Hex4(low))]);
    assert Units(high, low) == [Unicode(Hex4(high))] + [Unicode(Hex4(low))];
  }

  lemma WideValue(code: nat)
    requires 0xffff < code <= 0x10ffff
    ensures AreChars(RuneChars(code)) && TextOf(RuneChars(code)) == REPLACEMENT + REPLACEMENT
  {
    SurrogatesValue(0xd800 + (code - 0x10000) / 0x400, 0xdc00 + (code - 0x10000) % 0x400);
  }

  lemma {:induction false} TextOfConcat(a: seq<Char>, b: seq<Char>)
    requires AreChars(a) && AreChars(b)
    ensures AreChars(a + b) && TextOf(a + b) == TextOf(a) + TextOf(b)
  {
    if a == [] {
      assert a + b == b;
    } else {
      assert (a + b)[1..] == a[1..] + b;
      TextOfConcat(a[1..], b);
    }
  }

  lemma ReplacementValue()
    ensures AreChars(REPLACEMENT_CHARS) && TextOf(REPLACEMENT_CHARS) == REPLACEMENT
  {
    var cs := REPLACEMENT_CHARS;
    assert cs[1..] == [Raw(0xbf as char), Raw(0xbd as char)];
    assert cs[1..][1..] == [Raw(0xbd as char)];
    assert TextOf([Raw(0xbd as char)]) == [0xbd as char] + TextOf([]);
  }

  lemma {:induction false} EscapedValue(s: Text)
    ensures AreChars(Escaped(s)) && TextOf(Escaped(s)) == Echo(s)
    decreases |s|
  {
    if s == [] {
    } else if s[0] as int < 0x80 {
      AsciiValue(s[0]);
      EscapedValue(s[1..]);
      TextOfConcat([AsciiChar(s[0])], Escaped(s[1..]));
      assert TextOf([AsciiChar(s[0])]) == [s[0]] + TextOf([]);
    } else if DecodeRune(s).None? {
      ReplacementValue();
      EscapedValue(s[1..]);
      TextOfConcat(REPLACEMENT_CHARS, Escaped(s[1..]));
    } else {
      var rune := DecodeRune(s).value;
      RuneValue(s);
      EscapedValue(s[rune.size..]);
      TextOfConcat(RuneChars(rune.code), Escaped(s[rune.size..]));
    }
  }

  lemma {:induction false} EchoKeepsBasic(s: Text)
    requires IsBasic(s)
    ensures Echo(s) == s
    decreases |s|
  {
    if s == [] {
    } else if s[0] as int < 0x80 {
      EchoKeepsBasic(s[1..]);
      assert [s[0]] + s[1..] == s;
    } else {
      var size := DecodeRune(s).value.size;
      EchoKeepsBasic(s[size..]);
      assert s[..size] + s[size..] == s;
    }
  }

  lemma BasicRune(head: Text, s: Text)
    requires head != [] && head[0] as int >= 0x80 && IsBasic(s)
    requires DecodeRune(head).Some? && DecodeRune(head).value.size == |head| < 4
    ensures IsBasic(head + s)
  {
    var all := head + s;
    assert forall i :: 0 <= i < |head| ==> At(all, i) == At(head, i);
    assert DecodeRune(all) == DecodeRune(head);
    assert all[|head|..] == s;
  }

  lemma TwiceReplaced(rest: Text)
    requires IsBasic(rest)
    ensures IsBasic(REPLACEMENT + REPLACEMENT + rest)
  {
    BasicRune(REPLACEMENT, rest);
    BasicRune(REPLACEMENT, REPLACEMENT + rest);
    assert REPLACEMENT + REPLACEMENT + rest == REPLACEMENT + (REPLACEMENT + rest);
  }

  lemma {:induction false} EchoIsBasic(s: Text)
    ensures IsBasic(Echo(s))
    decreases |s|
  {
    if s == [] {
    } else if s[0] as int < 0x80 {
      EchoIsBasic(s[1..]);
      assert ([s[0]] + Echo(s[1..]))[1..] == Echo(s[1..]);
    } else if DecodeRune(s).None? {
      EchoIsBasic(s[1..]);
      BasicRune(REPLACEMENT, Echo(s[1..]));
    } else {
      var size := DecodeRune(s).value.size;
      EchoIsBasic(s[size..]);
      if size == 4 {
        TwiceReplaced(Echo(s[size..]));
      } else {
        assert forall i :: 0 <= i < size ==> At(s[..size], i) == At(s, i);
        BasicRune(s[..size], Echo(s[size..]));
      }
    }
  }

  /** A text survives being written and read exactly when it is valid UTF-8
      without characters beyond the basic plane. */
  lemma TextSurvives(s: Text)
    ensures AreChars(Escaped(s)) && (TextOf(Escaped(s)) == s <==> IsBasic(s))
  {
    EscapedValue(s);
    EchoIsBasic(s);
    if IsBasic(s) {
      EchoKeepsBasic(s);
    }
  }

  // ----- which bytes are written -----

  /** How many bytes the character at the front takes; a byte that starts none stands alone. */
  function HeadSize(s: Text): (size: nat)
    requires s != []
    ensures 1 <= size <= |s|
  {
    if s[0] as int < 0x80 then 1
    else match DecodeRune(s)
      case None => 1
      case Some(rune) => rune.size
  }

  /** The text cut into its characters and the bytes that start none. */
  function Pieces(s: Text): (pieces: seq<Text>)
    ensures [] !in pieces
    decreases |s|
  {
    if s == [] then [] else [s[..HeadSize(s)]] + Pieces(s[HeadSize(s)..])
  }

  function Joined(pieces: seq<Text>): Text {
    if pieces == [] then [] else pieces[0] + Joined(pieces[1..])
  }

  /** An ASCII byte. */
  predicate IsAscii(piece: Text) { |piece| == 1 && piece[0] as int < 0x80 }

  /** A character of several bytes. */
  predicate IsWhole(piece: Text) {
    && piece != [] && piece[0] as int >= 0x80
    && DecodeRune(piece).Some? && DecodeRune(piece).value.size == |piece|
  }

  /** A byte of none. */
  predicate IsStray(piece: Text) { |piece| == 1 && piece[0] as int >= 0x80 }

  function PieceChars(piece: Text): seq<Char> {
    if piece == [] then []
    else if piece[0] as int < 0x80 then [AsciiChar(piece[0])]
    else match DecodeRune(piece)
      case None => REPLACEMENT_CHARS
      case Some(rune) => RuneChars(rune.code)
  }

  function Written(pieces: seq<Text>): seq<Char> {
    if pieces == [] then [] else PieceChars(pieces[0]) + Written(pieces[1..])
  }

  /** A byte from 0x20 to 0x7f that means nothing in a string. */
  predicate IsPlain(c: Byte) { 0x20 <= c as int <= 0x7f && c !in {'"', '\\', '/'} }

  /** An ASCII byte is itself if it is plain, and an escape if not; a whole
      character is escapes alone; a stray byte is the three bytes of U+FFFD. */
  ghost predicate WellWritten(piece: Text) {
    var cs := PieceChars(piece);
    && (IsAscii(piece) || IsWhole(piece) || IsStray(piece))
    && (IsAscii(piece) ==> |cs| == 1 && (if IsPlain(piece[0]) then cs[0] == Raw(piece[0]) else !cs[0].Raw?))
    && (IsWhole(piece) ==> |cs| == (if |piece| == 4 then 2 else 1) && forall c :: c in cs ==> c.Unicode?)
    && (IsStray(piece) ==> cs == REPLACEMENT_CHARS)
  }

  lemma RuneOfPrefix(s: Text)
    requires s != [] && s[0] as int >= 0x80 && DecodeRune(s).Some?
    ensures DecodeRune(s[..DecodeRune(s).value.size]) == DecodeRune(s)
  {
    var size := DecodeRune(s).value.size;
    assert forall i :: 0 <= i < size ==> At(s[..size], i) == At(s, i);
  }

  lemma HeadWritten(s: Text)
    requires s != []
    ensures WellWritten(s[..HeadSize(s)])
    ensures Escaped(s) == PieceChars(s[..HeadSize(s)]) + Escaped(s[HeadSize(s)..])
  {
    if s[0] as int >= 0x80 && DecodeRune(s).Some? {
      RuneOfPrefix(s);
    }
  }

  lemma {:induction false} PiecesWellWritten(s: Text)
    ensures forall piece :: piece in Pieces(s) ==> WellWritten(piece)
    decreases |s|
  {
    if s != [] {
      HeadWritten(s);
      PiecesWellWritten(s[HeadSize(s)..]);
    }
  }

  lemma {:induction false} PiecesJoin(s: Text)
    ensures Joined(Pieces(s)) == s
    decreases |s|
  {
    if s != [] {
      var head, rest := s[..HeadSize(s)], s[HeadSize(s)..];
      PiecesJoin(rest);
      assert ([head] + Pieces(rest))[1..] == Pieces(rest) && head + rest == s;
    }
  }

  lemma {:induction false} PiecesWritten(s: Text)
    ensures Escaped(s) == Written(Pieces(s))
    decreases |s|
  {
    if s != [] {
      var head, rest := s[..HeadSize(s)], s[HeadSize(s)..];
      HeadWritten(s);
      PiecesWritten(rest);
      assert ([head] + Pieces(rest))[1..] == Pieces(rest);
    }
  }

  /** What is written is the text's pieces in order, each written well. So the
      only bytes beyond ASCII are those of U+FFFD, three for each stray byte. */
  lemma EscapedAlphabet(s: Text)
    ensures Joined(Pieces(s)) == s && Escaped(s) == Written(Pieces(s))
    ensures forall piece :: piece in Pieces(s) ==> WellWritten(piece)
  {
    PiecesWellWritten(s);
    PiecesJoin(s);
    PiecesWritten(s);
  }
}
