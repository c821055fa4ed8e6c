/** What the JSON decoder computes, as functions on the text still to be read. */
module JsonText {
  import opened Options
  import opened Bytes
  import opened JsonValue

  datatype Error = UnexpectedEnd | InvalidLiteral | ExpectedKey | ExpectedColon | ExpectedComma
                 | UnterminatedObject | UnterminatedArray | UnterminatedString
                 | BadEscape | BadUnicodeEscape | BadHex | InvalidNumber | TrailingCharacters

  datatype Parsed<T> = Ok(value: T, rest: Text) | Err(error: Error)

  // ----- white space -----

  predicate IsSpace(c: Byte) { c in {' ', '\t', '\n', '\r'} }

  function Skip(s: Text): (rest: Text)
    ensures |rest| <= |s|
    ensures rest != [] ==> !IsSpace(rest[0])
  {
    if s != [] && IsSpace(s[0]) then Skip(s[1..]) else s
  }

  // ----- strings -----

  function Code(digits: Text): (code: nat)
    requires |digits| == 4 && forall i :: 0 <= i < 4 ==> IsHex(digits[i])
    ensures code <= 0xffff
  {
    4096 * HexValue(digits[0]) + 256 * HexValue(digits[1]) + 16 * HexValue(digits[2]) + HexValue(digits[3])
  }

  predicate IsSurrogate(code: int) { 0xd800 <= code <= 0xdfff }

  /** U+FFFD in UTF-8. */
  const REPLACEMENT: Text := [0xef as char, 0xbf as char, 0xbd as char]

  /** A code point of the basic plane in UTF-8; a lone surrogate becomes U+FFFD. */
  function Utf8(code: nat): Text
    requires code <= 0xffff
  {
    if code < 0x80 then [code as char]
    else if code < 0x800 then [(0xc0 + code / 64) as char, (0x80 + code % 64) as char]
    else if IsSurrogate(code) then REPLACEMENT
    else [(0xe0 + code / 4096) as char, (0x80 + code / 64 % 64) as char, (0x80 + code % 64) as char]
  }

  function ShortEscape(c: Byte): Option<Byte> {
    if c in {'"', '\\', '/'} then Some(c)
    else if c == 'b' then Some(8 as char)
    else if c == 'f' then Some(12 as char)
    else if c == 'n' then Some('\n')
    else if c == 'r' then Some('\r')
    else if c == 't' then Some('\t')
    else None
  }

  /** How long the escape is that starts here. */
  function EscapeLength(s: Text): (n: nat)
    requires |s| >= 2
  {
    if s[1] == 'u' then 6 else 2
  }

  function Unquote(escape: Text): Parsed<Text>
    requires |escape| >= 2 && |escape| == EscapeLength(escape)
  {
    if escape[1] == 'u' then
      if forall i :: 2 <= i < 6 ==> IsHex(escape[i]) then Ok(Utf8(Code(escape[2..])), []) else Err(BadHex)
    else
      match ShortEscape(escape[1])
      case None => Err(BadEscape)
      case Some(c) => Ok([c], [])
  }

  /** At a backslash. */
  function Escape(s: Text): (parsed: Parsed<Text>)
    requires s != []
    ensures parsed.Ok? ==> |parsed.rest| < |s|
  {
    if |s| < 2 then Err(BadEscape)
    else if |s| < EscapeLength(s) then Err(BadUnicodeEscape)
    else
      var n := EscapeLength(s);
      match Unquote(s[..n])
      case Err(error) => Err(error)
      case Ok(text, _) => Ok(text, s[n..])
  }

  /** The rest of a string after its opening quote. */
  function Chars(done: Text, s: Text): (parsed: Parsed<Text>)
    ensures parsed.Ok? ==> |parsed.rest| < |s|
    decreases |s|
  {
    if s == [] then Err(UnterminatedString)
    else if s[0] == '"' then Ok(done, s[1..])
    else if s[0] != '\\' then Chars(done + [s[0]], s[1..])
    else
      match Escape(s)
      case Err(error) => Err(error)
      case Ok(text, rest) => Chars(done + text, rest)
  }

  // ----- numbers -----

  predicate InNumber(c: Byte) { IsDigit(c) || c in {'-', '+', '.', 'e', 'E'} }

  /** The longest run of number characters. */
  function NumberRun(s: Text): (n: nat)
    ensures n <= |s|
  {
    if s != [] && InNumber(s[0]) then 1 + NumberRun(s[1..]) else 0
  }

  predicate IsIntLiteral(literal: Text) {
    var digits := if literal != [] && literal[0] == '-' then literal[1..] else literal;
    digits != [] && AllDigits(digits)
  }

  function IntOf(literal: Text): int
    requires IsIntLiteral(literal)
  {
    if literal[0] == '-' then 0 - Numeral(literal[1..]) else Numeral(literal)
  }

  predicate IsInt64(n: int) { -0x8000_0000_0000_0000 <= n <= 0x7fff_ffff_ffff_ffff }

  function AfterSign(s: Text): Text {
    if s != [] && s[0] in {'-', '+'} then s[1..] else s
  }

  /** A decimal number as digits and a power of ten; the sign is left out. */
  datatype Scaled = Scaled(digits: nat, exponent: int)

  /** An exponent after its `e`. */
  function Exponent(s: Text): Option<int> {
    var digits := AfterSign(s);
    if digits == [] || !AllDigits(digits) then None
    else if s[0] == '-' then Some(0 - Numeral(digits))
    else Some(Numeral(digits))
  }

  /** One more character of the mantissa, a digit or the point. */
  function Grown(read: Scaled, c: Byte, pointed: bool): Scaled {
    if !IsDigit(c) then read
    else Scaled(10 * read.digits + DigitValue(c), if pointed then read.exponent - 1 else read.exponent)
  }

  /** Digits with at most one point among them, and then perhaps an exponent. */
  function Mantissa(s: Text, read: Scaled, any: bool, pointed: bool): Option<Scaled> {
    if s != [] && (IsDigit(s[0]) || (s[0] == '.' && !pointed)) then
      Mantissa(s[1..], Grown(read, s[0], pointed), any || IsDigit(s[0]), pointed || s[0] == '.')
    else if any then Ending(s, read)
    else None
  }

  /** After the mantissa nothing, or an exponent. */
  function Ending(s: Text, read: Scaled): Option<Scaled> {
    if s == [] then Some(read)
    else if s[0] != 'e' && s[0] != 'E' then None
    else
      match Exponent(s[1..])
      case None => None
      case Some(exponent) => Some(Scaled(read.digits, read.exponent + exponent))
  }

  function ReadDecimal(literal: Text): Option<Scaled> {
    Mantissa(AfterSign(literal), Scaled(0, 0), false, false)
  }

  /** The decimal point moved right, or left with what is then behind it dropped. */
  function Shifted(digits: nat, exponent: int): nat
    decreases if exponent < 0 then -exponent else exponent
  {
    if exponent == 0 then digits
    else if exponent > 0 then Shifted(10 * digits, exponent - 1)
    else Shifted(digits / 10, exponent + 1)
  }

  /** Binary digits, the highest first. */
  function Bits(n: nat): seq<bool> { if n == 0 then [] else Bits(n / 2) + [n % 2 == 1] }

  /** Rounds to a finite double: below 2^1024 - 2^970, the point midway between
      the largest double and the next power of two. */
  predicate FitsDouble(number: Scaled) {
    var bits := Bits(Shifted(number.digits, number.exponent));
    |bits| < 1024 || (|bits| == 1024 && false in bits[..54])
  }

  predicate IsFloat(literal: Text) {
    ReadDecimal(literal).Some? && FitsDouble(ReadDecimal(literal).value)
  }

  function NumberOf(literal: Text): Option<Json> {
    if IsIntLiteral(literal) && IsInt64(IntOf(literal)) then Some(Int(IntOf(literal)))
    else if IsFloat(literal) then Some(Double(literal))
    else None
  }

  function Number(s: Text): (parsed: Parsed<Json>)
    ensures parsed.Ok? ==> |parsed.rest| < |s|
  {
    var n := NumberRun(s);
    if n == 0 then Err(InvalidNumber)
    else match NumberOf(s[..n])
      case None => Err(InvalidNumber)
      case Some(value) => Ok(value, s[n..])
  }

  // ----- values -----

  function Literal(s: Text, word: Text, value: Json): (parsed: Parsed<Json>)
    requires word != []
    ensures parsed.Ok? ==> |parsed.rest| < |s|
  {
    if word <= s then Ok(value, s[|word|..]) else Err(InvalidLiteral)
  }

  function Value(s: Text): (parsed: Parsed<Json>)
    ensures parsed.Ok? ==> |parsed.rest| < |s|
    decreases |s|, 3
  {
    Token(Skip(s))
  }

  function Token(s: Text): (parsed: Parsed<Json>)
    ensures parsed.Ok? ==> |parsed.rest| < |s|
    decreases |s|, 2
  {
    if s == [] then Err(UnexpectedEnd)
    else if s[0] == '{' then ObjectValue(s[1..])
    else if s[0] == '[' then ArrayValue(s[1..])
    else if s[0] == '"' then
      match Chars([], s[1..])
      case Err(error) => Err(error)
      case Ok(text, rest) => Ok(Str(text), rest)
    else if s[0] == 't' then Literal(s, "true", Bool(true))
    else if s[0] == 'f' then Literal(s, "false", Bool(false))
    else if s[0] == 'n' then Literal(s, "null", Null)
    else Number(s)
  }

  /** After an opening brace. */
  function ObjectValue(s: Text): (parsed: Parsed<Json>)
    ensures parsed.Ok? ==> |parsed.rest| < |s|
    decreases |s|, 2
  {
    var t := Skip(s);
    if t != [] && t[0] == '}' then Ok(Obj([]), t[1..]) else Members([], t)
  }

  /** A member up to and with its colon. */
  function MemberKey(s: Text): (parsed: Parsed<Text>)
    ensures parsed.Ok? ==> |parsed.rest| < |s|
  {
    var t := Skip(s);
    if t == [] || t[0] != '"' then Err(ExpectedKey)
    else match Chars([], t[1..])
      case Err(error) => Err(error)
      case Ok(key, afterKey) =>
        var colon := Skip(afterKey);
        if colon == [] || colon[0] != ':' then Err(ExpectedColon) else Ok(key, colon[1..])
  }

  /** A key and its value. */
  function Member(s: Text): (parsed: Parsed<Entry>)
    ensures parsed.Ok? ==> |parsed.rest| < |s|
    decreases |s|, 0
  {
    match MemberKey(s)
    case Err(error) => Err(error)
    case Ok(key, afterColon) =>
      match Value(afterColon)
      case Err(error) => Err(error)
      case Ok(value, rest) => Ok((key, value), rest)
  }

  /** What follows an entry: a comma, or the closing bracket. */
  function Comma(s: Text, closing: Byte, unterminated: Error): (parsed: Parsed<bool>)
    ensures parsed.Ok? ==> |parsed.rest| < |s|
  {
    var next := Skip(s);
    if next == [] then Err(unterminated)
    else if next[0] == ',' then Ok(true, next[1..])
    else if next[0] == closing then Ok(false, next[1..])
    else Err(ExpectedComma)
  }

  /** The members still to come, onto those already set. */
  function Members(done: seq<Entry>, s: Text): (parsed: Parsed<Json>)
    ensures parsed.Ok? ==> |parsed.rest| < |s|
    decreases |s|, 1
  {
    match Member(s)
    case Err(error) => Err(error)
    case Ok(entry, afterValue) =>
      match Comma(afterValue, '}', UnterminatedObject)
      case Err(error) => Err(error)
      case Ok(more, rest) =>
        var entries := SetKey(done, entry.0, entry.1);
        if more then Members(entries, rest) else Ok(Obj(entries), rest)
  }

  /** After an opening bracket. */
  function ArrayValue(s: Text): (parsed: Parsed<Json>)
    ensures parsed.Ok? ==> |parsed.rest| < |s|
    decreases |s|, 5
  {
    var t := Skip(s);
    if t != [] && t[0] == ']' then Ok(Arr([]), t[1..]) else Items([], t)
  }

  function Items(done: seq<Json>, s: Text): (parsed: Parsed<Json>)
    ensures parsed.Ok? ==> |parsed.rest| < |s|
    decreases |s|, 4
  {
    match Value(s)
    case Err(error) => Err(error)
    case Ok(value, afterValue) =>
      match Comma(afterValue, ']', UnterminatedArray)
      case Err(error) => Err(error)
      case Ok(more, rest) => if more then Items(done + [value], rest) else Ok(Arr(done + [value]), rest)
  }

  function Decode(raw: Text): Parsed<Json> {
    match Value(raw)
    case Err(error) => Err(error)
    case Ok(value, rest) => if Skip(rest) == [] then Ok(value, []) else Err(TrailingCharacters)
  }
}
