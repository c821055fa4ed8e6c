/** Which of the texts the decoder takes are JSON by RFC 8259. */
module JsonStrict {
  import opened Options
  import opened Bytes
  import opened JsonValue
  import opened JsonText
  import opened JsonSyntax
  import JsonNumbers
  import JsonSoundness

  // ----- strict spellings -----

  /** Spelled by the number grammar of section 6. */
  ghost predicate IsRfcNumber(literal: Text) {
    exists n :: JsonNumbers.IsNumber(n) && JsonNumbers.NumberText(n) == literal
  }

  /** Section 7: control characters are escaped. */
  predicate IsStrictChar(c: Char) { c.Raw? ==> c.c as int >= 0x20 }

  predicate AreStrictChars(cs: seq<Char>) { forall i :: 0 <= i < |cs| ==> IsStrictChar(cs[i]) }

  /** Spelled by the grammar; whether the decoder takes it is not asked. */
  ghost predicate IsStrict(t: Tree) {
    match t
    case Word(value) => value in {Null, Bool(true), Bool(false)}
    case Number(literal) => IsRfcNumber(literal)
    case String(chars) => AreChars(chars) && AreStrictChars(chars)
    case EmptyArray(gap) => IsGap(gap)
    case Array(elements) => AreStrictElements(elements)
    case EmptyObject(gap) => IsGap(gap)
    case Object(fields) => AreStrictFields(fields)
  }

  ghost predicate AreStrictElements(es: Elements) {
    && IsGap(es.before) && IsStrict(es.tree) && IsGap(es.after)
    && (es.Element? ==> AreStrictElements(es.others))
  }

  ghost predicate AreStrictFields(fs: Fields) {
    && IsGap(fs.beforeKey) && AreChars(fs.key) && AreStrictChars(fs.key) && IsGap(fs.afterKey)
    && IsGap(fs.before) && IsStrict(fs.tree) && IsGap(fs.after)
    && (fs.Field? ==> AreStrictFields(fs.others))
  }

  ghost predicate Spells(raw: Text, before: Text, t: Tree, after: Text) {
    IsGap(before) && IsStrict(t) && IsGap(after) && raw == before + Spell(t, after)
  }

  /** A JSON text of section 2, read as bytes. */
  ghost predicate IsRfcDocument(raw: Text) {
    exists before, t, after :: Spells(raw, before, t, after)
  }

  // ----- the same, read off the characters -----

  /** How long the word is that starts with this letter. */
  function WordLength(c: Byte): nat { if c == 'f' then 5 else if c == 't' || c == 'n' then 4 else 0 }

  /** Outside strings every run of number characters is an RFC number, inside
      strings no byte is below 0x20. */
  ghost predicate Outside(s: Text)
    decreases |s|
  {
    if s == [] then true
    else if s[0] == '"' then Inside(s[1..])
    else if WordLength(s[0]) > 0 then |s| >= WordLength(s[0]) ==> Outside(s[WordLength(s[0])..])
    else if InNumber(s[0]) then NumberRun(s) > 0 ==> IsRfcNumber(s[..NumberRun(s)]) && Outside(s[NumberRun(s)..])
    else Outside(s[1..])
  }

  ghost predicate Inside(s: Text)
    decreases |s|
  {
    if s == [] then true
    else if s[0] == '"' then Outside(s[1..])
    else if s[0] == '\\' then |s| >= 2 ==> Inside(s[2..])
    else s[0] as int >= 0x20 && Inside(s[1..])
  }

  lemma {:induction false} GapOutside(gap: Text, s: Text)
    requires IsGap(gap)
    ensures Outside(gap + s) <==> Outside(s)
  {
    if gap == [] {
      assert gap + s == s;
    } else {
      assert (gap + s)[1..] == gap[1..] + s;
      assert IsSpace(gap[0]);
      GapOutside(gap[1..], s);
    }
  }

  lemma Punctuation(c: Byte, s: Text)
    requires c in {'[', ']', '{', '}', ',', ':'}
    ensures Outside([c] + s) <==> Outside(s)
  {
    assert ([c] + s)[1..] == s;
  }

  /** Hexadecimal digits are no control characters. */
  lemma HexInside(digits: Text, s: Text)
    requires |digits| == 4 && forall i :: 0 <= i < 4 ==> IsHex(digits[i])
    ensures Inside(digits + s) <==> Inside(s)
  {
    var t := digits + s;
    assert t[1..][1..][1..][1..] == s;
    assert t[1..][0] == digits[1] && t[1..][1..][0] == digits[2] && t[1..][1..][1..][0] == digits[3];
    assert forall i :: 0 <= i < 4 ==> digits[i] != '"' && digits[i] != '\\' && digits[i] as int >= 0x20;
    assert Inside(t) <==> Inside(t[1..]);
    assert Inside(t[1..]) <==> Inside(t[1..][1..]);
    assert Inside(t[1..][1..]) <==> Inside(t[1..][1..][1..]);
  }

  lemma CharInside(c: Char, s: Text)
    requires IsChar(c)
    ensures Inside(CharText(c) + s) <==> IsStrictChar(c) && Inside(s)
  {
    var t := CharText(c) + s;
    match c
    case Raw(b) =>
      assert t[1..] == s;
    case Short(name) =>
      assert t[2..] == s;
    case Unicode(digits) =>
      assert t[2..] == digits + s;
      HexInside(digits, s);
  }

  lemma {:induction false} CharsInside(cs: seq<Char>, s: Text)
    requires AreChars(cs)
    ensures Inside(CharsText(cs, s)) <==> AreStrictChars(cs) && Outside(s)
  {
    if cs == [] {
      assert ("\"" + s)[1..] == s;
    } else {
      CharInside(cs[0], CharsText(cs[1..], s));
      CharsInside(cs[1..], s);
      assert AreStrictChars(cs) <==> IsStrictChar(cs[0]) && AreStrictChars(cs[1..]) by {
        assert forall i :: 0 < i < |cs| ==> cs[i] == cs[1..][i - 1];
      }
    }
  }

  lemma QuoteOutside(cs: seq<Char>, s: Text)
    requires AreChars(cs)
    ensures Outside("\"" + CharsText(cs, s)) <==> AreStrictChars(cs) && Outside(s)
  {
    assert ("\"" + CharsText(cs, s))[1..] == CharsText(cs, s);
    CharsInside(cs, s);
  }

  lemma WordOutside(value: Json, s: Text)
    requires value in {Null, Bool(true), Bool(false)}
    ensures Outside(WordText(value) + s) <==> Outside(s)
  {
    var word := WordText(value);
    assert (word + s)[|word|..] == s && (word + s)[0] == word[0];
  }

  lemma NumberOutside(literal: Text, s: Text)
    requires IsLiteral(literal) && (s != [] ==> !InNumber(s[0]))
    ensures Outside(literal + s) <==> IsRfcNumber(literal) && Outside(s)
  {
    NumberRunIs(literal, s);
    assert (literal + s)[..|literal|] == literal && (literal + s)[|literal|..] == s;
    assert InNumber(literal[0]) && WordLength(literal[0]) == 0;
  }

  lemma {:induction false} TreeOutside(t: Tree, s: Text)
    requires IsTree(t) && Ends(t, s)
    ensures Outside(Spell(t, s)) <==> IsStrict(t) && Outside(s)
    decreases t, 1
  {
    match t
    case Word(value) => WordOutside(value, s);
    case Number(literal) => NumberOutside(literal, s);
    case String(chars) => QuoteOutside(chars, s);
    case EmptyArray(gap) =>
      Punctuation('[', gap + ("]" + s));
      GapOutside(gap, "]" + s);
      Punctuation(']', s);
    case EmptyObject(gap) =>
      Punctuation('{', gap + ("}" + s));
      GapOutside(gap, "}" + s);
      Punctuation('}', s);
    case Array(elements) =>
      Punctuation('[', ElementsText(elements, s));
      ElementsOutside(elements, s);
    case Object(fields) =>
      Punctuation('{', FieldsText(fields, s));
      FieldsOutside(fields, s);
  }

  lemma {:induction false} ElementsOutside(es: Elements, s: Text)
    requires AreElements(es)
    ensures Outside(ElementsText(es, s)) <==> AreStrictElements(es) && Outside(s)
    decreases es, 0
  {
    var next := AfterElement(es, s);
    GapOutside(es.before, Spell(es.tree, es.after + next));
    GapEnds(es.tree, es.after, next);
    TreeOutside(es.tree, es.after + next);
    GapOutside(es.after, next);
    if es.Element? {
      Punctuation(',', ElementsText(es.others, s));
      ElementsOutside(es.others, s);
    } else {
      Punctuation(']', s);
    }
  }

  lemma {:induction false} FieldsOutside(fs: Fields, s: Text)
    requires AreFields(fs)
    ensures Outside(FieldsText(fs, s)) <==> AreStrictFields(fs) && Outside(s)
    decreases fs, 0
  {
    var next := AfterField(fs, s);
    var value := fs.before + Spell(fs.tree, fs.after + next);
    GapOutside(fs.beforeKey, "\"" + CharsText(fs.key, fs.afterKey + (":" + value)));
    QuoteOutside(fs.key, fs.afterKey + (":" + value));
    GapOutside(fs.afterKey, ":" + value);
    Punctuation(':', value);
    GapOutside(fs.before, Spell(fs.tree, fs.after + next));
    GapEnds(fs.tree, fs.after, next);
    TreeOutside(fs.tree, fs.after + next);
    GapOutside(fs.after, next);
    if fs.Field? {
      Punctuation(',', FieldsText(fs.others, s));
      FieldsOutside(fs.others, s);
    } else {
      Punctuation('}', s);
    }
  }

  lemma DocumentOutside(raw: Text, before: Text, t: Tree, after: Text)
    requires JsonSoundness.IsDocument(raw, before, t, after)
    ensures Outside(raw) <==> IsStrict(t)
  {
    GapOutside(before, Spell(t, after));
    assert after != [] ==> IsSpace(after[0]);
    TreeOutside(t, after);
    assert after + [] == after;
    GapOutside(after, []);
  }

  // ----- which strict texts are taken -----

  /** Every number fits 64 bits or a double. */
  ghost predicate NumbersFit(t: Tree) {
    match t
    case Number(literal) => NumberOf(literal).Some?
    case Array(elements) => ElementsFit(elements)
    case Object(fields) => FieldsFit(fields)
    case _ => true
  }

  ghost predicate ElementsFit(es: Elements) {
    NumbersFit(es.tree) && (es.Element? ==> ElementsFit(es.others))
  }

  ghost predicate FieldsFit(fs: Fields) {
    NumbersFit(fs.tree) && (fs.Field? ==> FieldsFit(fs.others))
  }

  lemma RfcNumberIsLiteral(literal: Text)
    requires IsRfcNumber(literal)
    ensures literal != [] && forall i :: 0 <= i < |literal| ==> InNumber(literal[i])
  {
    var n :| JsonNumbers.IsNumber(n) && JsonNumbers.NumberText(n) == literal;
    JsonNumbers.NumberCharacters(n);
  }

  lemma {:induction false} StrictIsTree(t: Tree)
    requires IsStrict(t) && NumbersFit(t)
    ensures IsTree(t)
  {
    match t
    case Number(literal) => RfcNumberIsLiteral(literal);
    case Array(elements) => StrictAreElements(elements);
    case Object(fields) => StrictAreFields(fields);
    case _ =>
  }

  lemma {:induction false} StrictAreElements(es: Elements)
    requires AreStrictElements(es) && ElementsFit(es)
    ensures AreElements(es)
  {
    StrictIsTree(es.tree);
    if es.Element? {
      StrictAreElements(es.others);
    }
  }

  lemma {:induction false} StrictAreFields(fs: Fields)
    requires AreStrictFields(fs) && FieldsFit(fs)
    ensures AreFields(fs)
  {
    StrictIsTree(fs.tree);
    if fs.Field? {
      StrictAreFields(fs.others);
    }
  }

  lemma StrictFirst(t: Tree, s: Text)
    requires IsStrict(t)
    ensures Spell(t, s) != [] && !IsSpace(Spell(t, s)[0]) && Spell(t, s)[0] !in {']', '}', ',', ':'}
  {
    match t
    case Number(literal) =>
      RfcNumberIsLiteral(literal);
      assert InNumber(Spell(t, s)[0]);
    case _ =>
  }

  lemma LargeNumberFails(literal: Text, s: Text)
    requires IsRfcNumber(literal) && NumberOf(literal).None? && (s != [] ==> !InNumber(s[0]))
    ensures Value(literal + s) == Err(InvalidNumber)
  {
    RfcNumberIsLiteral(literal);
    NumberRunIs(literal, s);
    assert (literal + s)[..|literal|] == literal;
    ValueIsNumber(literal + s);
  }

  /** The first number that does not fit stops the decoder. */
  lemma {:induction false} TreeFails(t: Tree, s: Text)
    requires IsStrict(t) && Ends(t, s) && !NumbersFit(t)
    ensures Value(Spell(t, s)) == Err(InvalidNumber)
    decreases t, 1
  {
    match t
    case Number(literal) => LargeNumberFails(literal, s);
    case Array(elements) =>
      var all := ElementsText(elements, s);
      ElementsFail([], elements, s);
      StrictFirst(elements.tree, elements.after + AfterElement(elements, s));
      SkipTo(elements.before, Spell(elements.tree, elements.after + AfterElement(elements, s)));
      ArrayIsItems(all);
      assert ("[" + all)[1..] == all;
    case Object(fields) =>
      var all := FieldsText(fields, s);
      FieldsFail([], fields, s);
      SkipTo(fields.beforeKey, "\"" + CharsText(fields.key, fields.afterKey + AfterKey(fields, s)));
      ObjectIsMembers(all);
      assert ("{" + all)[1..] == all;
    case _ =>
  }

  lemma {:induction false} ElementsFail(done: seq<Json>, es: Elements, s: Text)
    requires AreStrictElements(es) && !ElementsFit(es)
    ensures Items(done, ElementsText(es, s)) == Err(InvalidNumber)
    decreases es, 0
  {
    var next := AfterElement(es, s);
    GapThenValue(es.before, Spell(es.tree, es.after + next));
    GapEnds(es.tree, es.after, next);
    if NumbersFit(es.tree) {
      StrictIsTree(es.tree);
      TreeDecodes(es.tree, es.after + next);
      SkipTo(es.after, next);
      assert next[1..] == ElementsText(es.others, s);
      NextItem(done, ElementsText(es, s), ValueOf(es.tree), es.after + next, next);
      ElementsFail(done + [ValueOf(es.tree)], es.others, s);
    } else {
      TreeFails(es.tree, es.after + next);
    }
  }

  /** A member whose value fails. */
  lemma FailingMember(done: seq<Entry>, s: Text, quote: Text, key: Text, afterKey: Text, colon: Text, error: Error)
    requires Skip(s) == quote && quote != [] && quote[0] == '"' && Chars([], quote[1..]) == Ok(key, afterKey)
    requires Skip(afterKey) == colon && colon != [] && colon[0] == ':' && Value(colon[1..]) == Err(error)
    ensures Members(done, s) == Err(error)
  {
    assert MemberKey(s) == Ok(key, colon[1..]);
  }

  lemma FittingValue(fs: Fields, next: Text, value: Text)
    requires AreStrictFields(fs) && NumbersFit(fs.tree) && next != [] && next[0] in {',', '}'}
    requires value == Spell(fs.tree, fs.after + next) && Ends(fs.tree, fs.after + next)
    ensures IsTree(fs.tree) && Value(value) == Ok(ValueOf(fs.tree), fs.after + next)
    ensures Skip(fs.after + next) == next
  {
    StrictIsTree(fs.tree);
    TreeDecodes(fs.tree, fs.after + next);
    SkipTo(fs.after, next);
  }

  lemma {:induction false} FieldsFail(done: seq<Entry>, fs: Fields, s: Text)
    requires AreStrictFields(fs) && !FieldsFit(fs)
    ensures Members(done, FieldsText(fs, s)) == Err(InvalidNumber)
    decreases fs, 0
  {
    var next := AfterField(fs, s);
    var colon := AfterKey(fs, s);
    var quote := "\"" + CharsText(fs.key, fs.afterKey + colon);
    var value := Spell(fs.tree, fs.after + next);
    SkipTo(fs.beforeKey, quote);
    KeyDecodes(fs.key, fs.afterKey, colon, quote);
    assert colon[1..] == fs.before + value;
    GapThenValue(fs.before, value);
    GapEnds(fs.tree, fs.after, next);
    if NumbersFit(fs.tree) {
      FittingValue(fs, next, value);
      NextMember(done, FieldsText(fs, s), quote, TextOf(fs.key), fs.afterKey + colon, colon,
                 ValueOf(fs.tree), fs.after + next, next);
      assert next[1..] == FieldsText(fs.others, s);
      FieldsFail(SetKey(done, TextOf(fs.key), ValueOf(fs.tree)), fs.others, s);
    } else {
      TreeFails(fs.tree, fs.after + next);
      FailingMember(done, FieldsText(fs, s), quote, TextOf(fs.key), fs.afterKey + colon, colon, InvalidNumber);
    }
  }

  /** A document of RFC 8259 is taken exactly when its numbers fit. */
  lemma RfcDocumentTakenIff(raw: Text, before: Text, t: Tree, after: Text)
    requires Spells(raw, before, t, after)
    ensures Decode(raw).Ok? <==> NumbersFit(t)
  {
    if NumbersFit(t) {
      StrictIsTree(t);
      DocumentDecodes(before, t, after);
    } else {
      TreeFails(t, after);
      GapThenValue(before, Spell(t, after));
    }
  }

  /** A text the decoder takes is a document of RFC 8259 exactly when its number
      runs are numbers of section 6 and its strings hold no raw control byte. */
  lemma DecodedIsRfcIff(raw: Text)
    requires Decode(raw).Ok?
    ensures IsRfcDocument(raw) <==> Outside(raw)
  {
    var before, t, after := JsonSoundness.DecodedIsDocument(raw);
    DocumentOutside(raw, before, t, after);
    if Outside(raw) {
      assert Spells(raw, before, t, after);
    }
    if IsRfcDocument(raw) {
      var b, u, a :| Spells(raw, b, u, a);
      RfcDocumentTakenIff(raw, b, u, a);
      StrictIsTree(u);
      DocumentOutside(raw, b, u, a);
    }
  }

  // ----- texts that are taken and are not JSON -----

  /** A number starts with a minus or a digit, and a leading zero stands alone. */
  lemma RfcNumberStarts(literal: Text)
    requires IsRfcNumber(literal)
    ensures literal != [] && (literal[0] == '-' || IsDigit(literal[0]))
    ensures |literal| > 1 && literal[0] == '0' ==> !IsDigit(literal[1])
  {
    var n :| JsonNumbers.IsNumber(n) && JsonNumbers.NumberText(n) == literal;
    assert IsDigit(n.whole[0]);
    if !n.negative && |literal| > 1 && literal[0] == '0' {
      var rest := JsonNumbers.FractionText(n.fraction) + JsonNumbers.PowerText(n.power);
      assert literal == n.whole + rest && |n.whole| == 1;
      assert literal[1] == rest[0];
    }
  }

  /** `+1`, `.5` and `01` are taken, and so is a raw line feed in a string; none
      of them is JSON. */
  lemma TakenButNotJson()
    ensures forall raw :: raw in {"+1", ".5", "01", "\"\n\""} ==> Decode(raw).Ok? && !IsRfcDocument(raw)
  {
    PlusOneTaken();
    PointFiveTaken();
    ZeroOneTaken();
    LineFeedTaken();
  }

  lemma AllNumber(s: Text)
    requires s != [] && forall i :: 0 <= i < |s| ==> InNumber(s[i])
    ensures NumberRun(s) == |s|
    ensures NumberOf(s).Some? ==> Decode(s).Ok?
    ensures WordLength(s[0]) == 0 && !IsRfcNumber(s) ==> !Outside(s)
  {
    NumberRunIs(s, []);
    assert s + [] == s && s[..|s|] == s;
    ValueIsNumber(s);
  }

  lemma PlusOneTaken()
    ensures Decode("+1").Ok? && !IsRfcDocument("+1")
  {
    var s: Text := "+1";
    AllNumber(s);
    assert AfterSign(s) == "1" && s[1..] == "1";
    var one: Text := "1";
    assert one[1..] == [];
    assert ReadDecimal(s) == Some(Scaled(1, 0));
    assert Bits(1) == [true];
    if IsRfcNumber(s) { RfcNumberStarts(s); }
    DecodedIsRfcIff(s);
  }

  lemma PointFiveTaken()
    ensures Decode(".5").Ok? && !IsRfcDocument(".5")
  {
    var s: Text := ".5";
    AllNumber(s);
    assert AfterSign(s) == s;
    var five: Text := "5";
    assert s[1..] == five && five[1..] == [];
    assert Mantissa(s, Scaled(0, 0), false, false) == Mantissa(five, Scaled(0, 0), false, true);
    assert Grown(Scaled(0, 0), five[0], true) == Scaled(5, -1);
    assert Mantissa(five, Scaled(0, 0), false, true) == Mantissa([], Scaled(5, -1), true, true);
    assert Shifted(5, -1) == 0 && Bits(0) == [];
    if IsRfcNumber(s) { RfcNumberStarts(s); }
    DecodedIsRfcIff(s);
  }

  lemma ZeroOneTaken()
    ensures Decode("01").Ok? && !IsRfcDocument("01")
  {
    var s: Text := "01";
    AllNumber(s);
    var zero: Text := "0";
    assert s[..1] == zero && zero[..0] == [];
    assert Numeral(zero) == 0 && Numeral(s) == 1;
    if IsRfcNumber(s) { RfcNumberStarts(s); }
    DecodedIsRfcIff(s);
  }

  lemma LineFeedTaken()
    ensures Decode("\"\n\"").Ok? && !IsRfcDocument("\"\n\"")
  {
    var t := String([Raw('\n')]);
    var s: Text := "\"\n\"";
    assert [Raw('\n')][1..] == [];
    assert CharsText([Raw('\n')], []) == "\n\"";
    assert [] + Spell(t, []) == s;
    DocumentDecodes([], t, []);
    var inside: Text := "\n\"";
    assert s[1..] == inside;
    DecodedIsRfcIff(s);
  }
}
