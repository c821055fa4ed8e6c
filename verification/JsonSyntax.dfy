/** JSON documents as they are spelled, and the decoder against them. */
module JsonSyntax {
  import opened Options
  import opened Bytes
  import opened JsonValue
  import opened JsonText

  // ----- spellings -----

  /** A character as itself, as a two-character escape, or as `\u` and four digits. */
  datatype Char = Raw(c: Byte) | Short(name: Byte) | Unicode(digits: Text)

  /** A spelled value. Text between tokens is white space. */
  datatype Tree = Word(value: Json) | Number(literal: Text) | String(chars: seq<Char>)
                | EmptyArray(gap: Text) | Array(elements: Elements)
                | EmptyObject(gap: Text) | Object(fields: Fields)

  datatype Elements = LastElement(before: Text, tree: Tree, after: Text)
                    | Element(before: Text, tree: Tree, after: Text, others: Elements)

  datatype Fields = LastField(beforeKey: Text, key: seq<Char>, afterKey: Text, before: Text, tree: Tree, after: Text)
                  | Field(beforeKey: Text, key: seq<Char>, afterKey: Text, before: Text, tree: Tree, after: Text,
                          others: Fields)

  predicate IsGap(s: Text) { forall i :: 0 <= i < |s| ==> IsSpace(s[i]) }

  predicate IsChar(c: Char) {
    match c
    case Raw(b) => b != '"' && b != '\\'
    case Short(name) => ShortEscape(name).Some?
    case Unicode(digits) => |digits| == 4 && forall i :: 0 <= i < 4 ==> IsHex(digits[i])
  }

  predicate AreChars(cs: seq<Char>) { forall i :: 0 <= i < |cs| ==> IsChar(cs[i]) }

  predicate IsLiteral(literal: Text) {
    && literal != []
    && (forall i :: 0 <= i < |literal| ==> InNumber(literal[i]))
    && NumberOf(literal).Some?
  }

  predicate IsTree(t: Tree) {
    match t
    case Word(value) => value in {Null, Bool(true), Bool(false)}
    case Number(literal) => IsLiteral(literal)
    case String(chars) => AreChars(chars)
    case EmptyArray(gap) => IsGap(gap)
    case Array(elements) => AreElements(elements)
    case EmptyObject(gap) => IsGap(gap)
    case Object(fields) => AreFields(fields)
  }

  predicate AreElements(es: Elements) {
    && IsGap(es.before) && IsTree(es.tree) && IsGap(es.after)
    && (es.Element? ==> AreElements(es.others))
  }

  predicate AreFields(fs: Fields) {
    && IsGap(fs.beforeKey) && AreChars(fs.key) && IsGap(fs.afterKey)
    && IsGap(fs.before) && IsTree(fs.tree) && IsGap(fs.after)
    && (fs.Field? ==> AreFields(fs.others))
  }

  // ----- the text of a spelling -----

  function CharText(c: Char): Text {
    match c
    case Raw(b) => [b]
    case Short(name) => ['\\', name]
    case Unicode(digits) => "\\u" + digits
  }

  /** Up to and with the closing quote, and then the text that follows. */
  function CharsText(cs: seq<Char>, s: Text): Text {
    if cs == [] then "\"" + s else CharText(cs[0]) + CharsText(cs[1..], s)
  }

  function WordText(value: Json): Text {
    match value case Null => "null" case Bool(b) => if b then "true" else "false" case _ => []
  }

  /** A spelled value, and then the text that follows it. */
  function Spell(t: Tree, s: Text): Text {
    match t
    case Word(value) => WordText(value) + s
    case Number(literal) => literal + s
    case String(chars) => "\"" + CharsText(chars, s)
    case EmptyArray(gap) => "[" + (gap + ("]" + s))
    case Array(elements) => "[" + ElementsText(elements, s)
    case EmptyObject(gap) => "{" + (gap + ("}" + s))
    case Object(fields) => "{" + FieldsText(fields, s)
  }

  function AfterElement(es: Elements, s: Text): Text
    decreases es, 0
  {
    if es.Element? then "," + ElementsText(es.others, s) else "]" + s
  }

  function ElementsText(es: Elements, s: Text): Text
    decreases es, 1
  {
    es.before + Spell(es.tree, es.after + AfterElement(es, s))
  }

  function AfterField(fs: Fields, s: Text): Text
    decreases fs, 0
  {
    if fs.Field? then "," + FieldsText(fs.others, s) else "}" + s
  }

  function AfterKey(fs: Fields, s: Text): Text
    decreases fs, 1
  {
    ":" + (fs.before + Spell(fs.tree, fs.after + AfterField(fs, s)))
  }

  function FieldsText(fs: Fields, s: Text): Text
    decreases fs, 2
  {
    fs.beforeKey + ("\"" + CharsText(fs.key, fs.afterKey + AfterKey(fs, s)))
  }

  // ----- the value of a spelling -----

  function CharValue(c: Char): Text
    requires IsChar(c)
  {
    match c
    case Raw(b) => [b]
    case Short(name) => [ShortEscape(name).value]
    case Unicode(digits) => Utf8(Code(digits))
  }

  function TextOf(cs: seq<Char>): Text
    requires AreChars(cs)
  {
    if cs == [] then [] else CharValue(cs[0]) + TextOf(cs[1..])
  }

  function ValueOf(t: Tree): Json
    requires IsTree(t)
  {
    match t
    case Word(value) => value
    case Number(literal) => NumberOf(literal).value
    case String(chars) => Str(TextOf(chars))
    case EmptyArray(_) => Arr([])
    case Array(elements) => Arr(ItemsOf(elements))
    case EmptyObject(_) => Obj([])
    case Object(fields) => Obj(SetAll([], EntriesOf(fields)))
  }

  function ItemsOf(es: Elements): seq<Json>
    requires AreElements(es)
  {
    if es.Element? then [ValueOf(es.tree)] + ItemsOf(es.others) else [ValueOf(es.tree)]
  }

  function EntriesOf(fs: Fields): seq<Entry>
    requires AreFields(fs)
  {
    var entry := (TextOf(fs.key), ValueOf(fs.tree));
    if fs.Field? then [entry] + EntriesOf(fs.others) else [entry]
  }

  /** Setting the entries one after the other. */
  function SetAll(done: seq<Entry>, entries: seq<Entry>): seq<Entry>
    decreases |entries|
  {
    if entries == [] then done else SetAll(SetKey(done, entries[0].0, entries[0].1), entries[1..])
  }

  /** Entries with distinct keys are what setting them gives, in the same order. */
  lemma {:induction false} SetAllDistinct(done: seq<Entry>, entries: seq<Entry>)
    requires DistinctKeys(done + entries)
    ensures SetAll(done, entries) == done + entries
    decreases |entries|
  {
    if entries == [] {
      assert done + entries == done;
    } else {
      var (key, value) := entries[0];
      forall i | 0 <= i < |done| ensures done[i].0 != key {
        assert (done + entries)[i] == done[i] && (done + entries)[|done|] == entries[0];
      }
      SetNewKey(done, key, value);
      assert done + [(key, value)] + entries[1..] == done + entries;
      SetAllDistinct(done + [(key, value)], entries[1..]);
    }
  }

  // ----- every spelling decodes to its value -----

  lemma {:induction false} SkipGap(gap: Text, s: Text)
    requires IsGap(gap)
    ensures Skip(gap + s) == Skip(s)
  {
    if gap == [] {
      assert gap + s == s;
    } else {
      assert (gap + s)[1..] == gap[1..] + s;
      SkipGap(gap[1..], s);
    }
  }

  /** Up to the next token. */
  lemma SkipTo(gap: Text, s: Text)
    requires IsGap(gap) && (s != [] ==> !IsSpace(s[0]))
    ensures Skip(gap + s) == s
  {
    SkipGap(gap, s);
  }

  lemma OneChar(done: Text, c: Char, s: Text)
    requires IsChar(c)
    ensures Chars(done, CharText(c) + s) == Chars(done + CharValue(c), s)
  {
    var t := CharText(c) + s;
    match c
    case Raw(b) =>
      assert t[1..] == s;
    case Short(name) =>
      assert name != 'u';
      assert t[..2] == CharText(c) && t[2..] == s;
    case Unicode(digits) =>
      assert t[1] == 'u' && t[..6] == CharText(c) && t[6..] == s;
      assert t[..6][2..] == digits;
      assert forall i :: 2 <= i < 6 ==> t[..6][i] == digits[i - 2];
  }

  lemma {:induction false} CharsDecode(done: Text, cs: seq<Char>, s: Text)
    requires AreChars(cs)
    ensures Chars(done, CharsText(cs, s)) == Ok(done + TextOf(cs), s)
    decreases |cs|
  {
    if cs == [] {
      assert ("\"" + s)[1..] == s;
      assert done + [] == done;
    } else {
      OneChar(done, cs[0], CharsText(cs[1..], s));
      CharsDecode(done + CharValue(cs[0]), cs[1..], s);
      assert done + CharValue(cs[0]) + TextOf(cs[1..]) == done + TextOf(cs);
    }
  }

  lemma {:induction false} NumberRunIs(literal: Text, s: Text)
    requires forall i :: 0 <= i < |literal| ==> InNumber(literal[i])
    requires s != [] ==> !InNumber(s[0])
    ensures NumberRun(literal + s) == |literal|
  {
    if literal == [] {
      assert literal + s == s;
    } else {
      assert (literal + s)[1..] == literal[1..] + s;
      NumberRunIs(literal[1..], s);
    }
  }

  /** A number ends where no number character follows; other values end anywhere. */
  predicate Ends(t: Tree, s: Text) { t.Number? && s != [] ==> !InNumber(s[0]) }

  lemma FirstCharacter(t: Tree, s: Text)
    requires IsTree(t)
    ensures Spell(t, s) != [] && !IsSpace(Spell(t, s)[0]) && Spell(t, s)[0] !in {']', '}', ',', ':'}
  {
  }

  lemma WordDecodes(value: Json, s: Text)
    requires value in {Null, Bool(true), Bool(false)}
    ensures Value(WordText(value) + s) == Ok(value, s)
  {
    var word := WordText(value);
    assert word <= word + s && (word + s)[|word|..] == s;
  }

  lemma NumberReads(literal: Text, s: Text, value: Json)
    requires literal != [] && NumberOf(literal) == Some(value)
    requires forall i :: 0 <= i < |literal| ==> InNumber(literal[i])
    requires s != [] ==> !InNumber(s[0])
    ensures JsonText.Number(literal + s) == Ok(value, s)
  {
    NumberRunIs(literal, s);
    assert (literal + s)[..|literal|] == literal && (literal + s)[|literal|..] == s;
  }

  lemma ValueIsNumber(s: Text)
    requires s != [] && InNumber(s[0])
    ensures Value(s) == JsonText.Number(s)
  {
    TokenIsNumber(s);
    assert Skip(s) == s;
  }

  lemma TokenIsNumber(s: Text)
    requires s != [] && InNumber(s[0])
    ensures Token(s) == JsonText.Number(s)
  {
    var c := s[0];
    assert c != '{' && c != '[' && c != '"' && c != 't' && c != 'f' && c != 'n';
  }

  lemma NumberDecodes(literal: Text, s: Text)
    requires IsLiteral(literal) && (s != [] ==> !InNumber(s[0]))
    ensures Value(literal + s) == Ok(NumberOf(literal).value, s)
  {
    NumberReads(literal, s, NumberOf(literal).value);
    ValueIsNumber(literal + s);
  }

  lemma StringDecodes(cs: seq<Char>, s: Text)
    requires AreChars(cs)
    ensures Value("\"" + CharsText(cs, s)) == Ok(Str(TextOf(cs)), s)
  {
    var inner := CharsText(cs, s);
    assert ("\"" + inner)[1..] == inner;
    CharsDecode([], cs, s);
    assert [] + TextOf(cs) == TextOf(cs);
  }

  lemma EmptyDecodes(gap: Text, s: Text)
    requires IsGap(gap)
    ensures Value("[" + (gap + ("]" + s))) == Ok(Arr([]), s)
    ensures Value("{" + (gap + ("}" + s))) == Ok(Obj([]), s)
  {
    var list, record := "[" + (gap + ("]" + s)), "{" + (gap + ("}" + s));
    assert Skip(list) == list && list[1..] == gap + ("]" + s);
    SkipTo(gap, "]" + s);
    assert ("]" + s)[1..] == s;
    assert Token(list) == ArrayValue(list[1..]);
    assert Skip(record) == record && record[1..] == gap + ("}" + s);
    SkipTo(gap, "}" + s);
    assert ("}" + s)[1..] == s;
    assert Token(record) == ObjectValue(record[1..]);
  }

  lemma {:induction false} TreeDecodes(t: Tree, s: Text)
    requires IsTree(t) && Ends(t, s)
    ensures Value(Spell(t, s)) == Ok(ValueOf(t), s)
    decreases t, 1
  {
    match t
    case Word(value) => WordDecodes(value, s);
    case Number(literal) => NumberDecodes(literal, s);
    case String(chars) => StringDecodes(chars, s);
    case EmptyArray(gap) => EmptyDecodes(gap, s);
    case EmptyObject(gap) => EmptyDecodes(gap, s);
    case Array(elements) =>
      ElementsDecode([], elements, s);
      OpenArray(elements, s);
      assert [] + ItemsOf(elements) == ItemsOf(elements);
    case Object(fields) =>
      FieldsDecode([], fields, s);
      OpenObject(fields, s);
  }

  /** White space before a value is skipped. */
  lemma GapThenValue(gap: Text, s: Text)
    requires IsGap(gap)
    ensures Value(gap + s) == Value(s)
  {
    SkipGap(gap, s);
  }

  /** What follows an element or a field does not continue a number. */
  lemma GapEnds(t: Tree, gap: Text, s: Text)
    requires IsGap(gap) && s != [] && !InNumber(s[0])
    ensures Ends(t, gap + s)
  {
  }

  /** A list or object that is not empty is what its loop reads. */
  lemma ObjectIsMembers(s: Text)
    requires Skip(s) == [] || Skip(s)[0] != '}'
    ensures ObjectValue(s) == Members([], s)
  {
    assert MemberKey(Skip(s)) == MemberKey(s);
    assert Member(Skip(s)) == Member(s);
  }

  lemma ArrayIsItems(s: Text)
    requires Skip(s) == [] || Skip(s)[0] != ']'
    ensures ArrayValue(s) == Items([], s)
  {
    assert Value(Skip(s)) == Value(s);
  }

  lemma OpenArray(es: Elements, s: Text)
    requires AreElements(es)
    ensures Value("[" + ElementsText(es, s)) == Items([], ElementsText(es, s))
  {
    var all := ElementsText(es, s);
    FirstCharacter(es.tree, es.after + AfterElement(es, s));
    SkipTo(es.before, Spell(es.tree, es.after + AfterElement(es, s)));
    ArrayIsItems(all);
    assert ("[" + all)[1..] == all;
  }

  lemma OpenObject(fs: Fields, s: Text)
    requires AreFields(fs)
    ensures Value("{" + FieldsText(fs, s)) == Members([], FieldsText(fs, s))
  {
    var all := FieldsText(fs, s);
    SkipTo(fs.beforeKey, "\"" + CharsText(fs.key, fs.afterKey + AfterKey(fs, s)));
    ObjectIsMembers(all);
    assert ("{" + all)[1..] == all;
  }

  /** One turn of the array loop. */
  lemma NextItem(done: seq<Json>, s: Text, value: Json, afterValue: Text, next: Text)
    requires Value(s) == Ok(value, afterValue) && Skip(afterValue) == next && next != []
    ensures next[0] == ',' ==> Items(done, s) == Items(done + [value], next[1..])
    ensures next[0] == ']' ==> Items(done, s) == Ok(Arr(done + [value]), next[1..])
  {
  }

  lemma {:induction false} ElementDecodes(es: Elements, next: Text)
    requires AreElements(es) && next != [] && next[0] in {',', ']'}
    ensures Value(es.before + Spell(es.tree, es.after + next)) == Ok(ValueOf(es.tree), es.after + next)
    ensures Skip(es.after + next) == next
    decreases es, 0
  {
    GapThenValue(es.before, Spell(es.tree, es.after + next));
    GapEnds(es.tree, es.after, next);
    TreeDecodes(es.tree, es.after + next);
    SkipTo(es.after, next);
  }

  lemma {:induction false} ElementsDecode(done: seq<Json>, es: Elements, s: Text)
    requires AreElements(es)
    ensures Items(done, ElementsText(es, s)) == Ok(Arr(done + ItemsOf(es)), s)
    decreases es, 1
  {
    var next := AfterElement(es, s);
    ElementDecodes(es, next);
    NextItem(done, ElementsText(es, s), ValueOf(es.tree), es.after + next, next);
    if es.Element? {
      assert next[1..] == ElementsText(es.others, s);
      ElementsDecode(done + [ValueOf(es.tree)], es.others, s);
      AppendStep(done, ValueOf(es.tree), ItemsOf(es.others));
    } else {
      assert next[1..] == s;
    }
  }

  lemma AppendStep(done: seq<Json>, value: Json, items: seq<Json>)
    ensures done + [value] + items == done + ([value] + items)
  {
  }

  /** One turn of the object loop. */
  lemma NextMember(done: seq<Entry>, s: Text, quote: Text, key: Text, afterKey: Text, colon: Text,
                   value: Json, afterValue: Text, next: Text)
    requires Skip(s) == quote && quote != [] && quote[0] == '"' && Chars([], quote[1..]) == Ok(key, afterKey)
    requires Skip(afterKey) == colon && colon != [] && colon[0] == ':' && Value(colon[1..]) == Ok(value, afterValue)
    requires Skip(afterValue) == next && next != []
    ensures next[0] == ',' ==> Members(done, s) == Members(SetKey(done, key, value), next[1..])
    ensures next[0] == '}' ==> Members(done, s) == Ok(Obj(SetKey(done, key, value)), next[1..])
  {
  }

  lemma {:induction false} FieldsDecode(done: seq<Entry>, fs: Fields, s: Text)
    requires AreFields(fs)
    ensures Members(done, FieldsText(fs, s)) == Ok(Obj(SetAll(done, EntriesOf(fs))), s)
    decreases fs, 1
  {
    var next := AfterField(fs, s);
    var colon := AfterKey(fs, s);
    var quote := "\"" + CharsText(fs.key, fs.afterKey + colon);
    SkipTo(fs.beforeKey, quote);
    KeyDecodes(fs.key, fs.afterKey, colon, quote);
    FieldValueDecodes(fs, next, colon);
    NextMember(done, FieldsText(fs, s), quote, TextOf(fs.key), fs.afterKey + colon, colon,
               ValueOf(fs.tree), fs.after + next, next);
    if fs.Field? {
      assert next[1..] == FieldsText(fs.others, s);
      FieldsDecode(SetKey(done, TextOf(fs.key), ValueOf(fs.tree)), fs.others, s);
      SetAllStep(done, TextOf(fs.key), ValueOf(fs.tree), EntriesOf(fs.others));
    } else {
      assert next[1..] == s;
      SetAllStep(done, TextOf(fs.key), ValueOf(fs.tree), []);
    }
  }

  lemma KeyDecodes(key: seq<Char>, afterKey: Text, colon: Text, quote: Text)
    requires AreChars(key) && IsGap(afterKey) && colon != [] && colon[0] == ':'
    requires quote == "\"" + CharsText(key, afterKey + colon)
    ensures Chars([], quote[1..]) == Ok(TextOf(key), afterKey + colon) && Skip(afterKey + colon) == colon
  {
    assert quote[1..] == CharsText(key, afterKey + colon);
    CharsDecode([], key, afterKey + colon);
    assert [] + TextOf(key) == TextOf(key);
    SkipTo(afterKey, colon);
  }

  lemma {:induction false} FieldValueDecodes(fs: Fields, next: Text, colon: Text)
    requires AreFields(fs) && next != [] && next[0] in {',', '}'}
    requires colon == ":" + (fs.before + Spell(fs.tree, fs.after + next))
    ensures Value(colon[1..]) == Ok(ValueOf(fs.tree), fs.after + next) && Skip(fs.after + next) == next
    decreases fs, 0
  {
    var value := Spell(fs.tree, fs.after + next);
    assert colon[1..] == fs.before + value;
    GapThenValue(fs.before, value);
    GapEnds(fs.tree, fs.after, next);
    TreeDecodes(fs.tree, fs.after + next);
    SkipTo(fs.after, next);
  }

  lemma SetAllStep(done: seq<Entry>, key: Text, value: Json, entries: seq<Entry>)
    ensures SetAll(done, [(key, value)] + entries) == SetAll(SetKey(done, key, value), entries)
  {
    assert ([(key, value)] + entries)[1..] == entries;
  }

  /** Every document, however it is spelled and spaced, decodes to its value. */
  lemma DocumentDecodes(before: Text, t: Tree, after: Text)
    requires IsGap(before) && IsTree(t) && IsGap(after)
    ensures Decode(before + Spell(t, after)) == Ok(ValueOf(t), [])
  {
    GapThenValue(before, Spell(t, after));
    TreeDecodes(t, after);
    assert after + [] == after;
    SkipTo(after, []);
  }
}
