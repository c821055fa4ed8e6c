/** What the decoder accepts is a spelled document, and nothing else is. */
module JsonSoundness {
  import opened Bytes
  import opened JsonValue
  import opened JsonText
  import opened JsonSyntax

  lemma {:induction false} Skipped(s: Text) returns (gap: Text)
    ensures IsGap(gap) && s == gap + Skip(s)
  {
    if s != [] && IsSpace(s[0]) {
      var more := Skipped(s[1..]);
      gap := [s[0]] + more;
      assert gap + Skip(s[1..]) == [s[0]] + (more + Skip(s[1..]));
      assert s == [s[0]] + s[1..];
    } else {
      gap := [];
    }
  }

  /** The character or escape a string goes on with. */
  lemma CharRead(done: Text, s: Text) returns (c: Char, rest: Text)
    requires Chars(done, s).Ok? && s[0] != '"'
    ensures IsChar(c) && s == CharText(c) + rest && Chars(done, s) == Chars(done + CharValue(c), rest)
    ensures |rest| < |s|
  {
    if s[0] != '\\' {
      c, rest := Raw(s[0]), s[1..];
    } else if s[1] == 'u' {
      c, rest := Unicode(s[2..6]), s[6..];
      assert s[..6][2..] == s[2..6];
      assert forall i :: 0 <= i < 4 ==> s[2..6][i] == s[..6][i + 2];
      assert s[..6] == "\\u" + s[2..6];
    } else {
      c, rest := Short(s[1]), s[2..];
    }
  }

  lemma ConsChar(done: Text, c: Char, cs: seq<Char>, s: Text)
    requires IsChar(c) && AreChars(cs)
    ensures AreChars([c] + cs)
    ensures CharsText([c] + cs, s) == CharText(c) + CharsText(cs, s)
    ensures done + CharValue(c) + TextOf(cs) == done + TextOf([c] + cs)
  {
    assert ([c] + cs)[1..] == cs;
  }

  lemma {:induction false} CharsRead(done: Text, s: Text) returns (cs: seq<Char>)
    requires Chars(done, s).Ok?
    ensures AreChars(cs) && s == CharsText(cs, Chars(done, s).rest)
    ensures Chars(done, s).value == done + TextOf(cs)
    decreases |s|
  {
    if s[0] == '"' {
      cs := [];
      QuoteRead(done, s);
    } else {
      var c, rest := CharRead(done, s);
      var more := CharsRead(done + CharValue(c), rest);
      ConsChar(done, c, more, Chars(done, s).rest);
      cs := [c] + more;
    }
  }

  lemma QuoteRead(done: Text, s: Text)
    requires s != [] && s[0] == '"'
    ensures Chars(done, s) == Ok(done + TextOf([]), s[1..]) && s == CharsText([], s[1..])
  {
    assert s == "\"" + s[1..];
    assert done + [] == done;
  }

  lemma {:induction false} RunRead(s: Text)
    ensures forall i :: 0 <= i < NumberRun(s) ==> InNumber(s[i])
    ensures NumberRun(s) < |s| ==> !InNumber(s[NumberRun(s)])
  {
    if s != [] && InNumber(s[0]) {
      RunRead(s[1..]);
      assert forall i :: 0 < i < NumberRun(s) ==> s[i] == s[1..][i - 1];
    }
  }

  lemma NumberRead(s: Text) returns (t: Tree)
    requires JsonText.Number(s).Ok?
    ensures var parsed := JsonText.Number(s);
      IsTree(t) && s == Spell(t, parsed.rest) && ValueOf(t) == parsed.value && Ends(t, parsed.rest)
  {
    var n := NumberRun(s);
    RunRead(s);
    t := LiteralOf(s, n);
  }

  lemma LiteralOf(s: Text, n: nat) returns (t: Tree)
    requires n == NumberRun(s) && JsonText.Number(s).Ok?
    requires forall i :: 0 <= i < n ==> InNumber(s[i])
    requires n < |s| ==> !InNumber(s[n])
    ensures var parsed := JsonText.Number(s);
      IsTree(t) && s == Spell(t, parsed.rest) && ValueOf(t) == parsed.value && Ends(t, parsed.rest)
  {
    t := Tree.Number(s[..n]);
    assert s == s[..n] + s[n..];
  }

  ghost predicate Spells(t: Tree, s: Text, parsed: Parsed<Json>)
    requires parsed.Ok?
  {
    IsTree(t) && s == Spell(t, parsed.rest) && ValueOf(t) == parsed.value && Ends(t, parsed.rest)
  }

  lemma LiteralRead(s: Text, word: Json)
    requires word in {Null, Bool(true), Bool(false)} && Literal(s, WordText(word), word).Ok?
    ensures Spells(Word(word), s, Literal(s, WordText(word), word))
  {
  }

  /** Each value read is spelled by some tree, after some white space. */
  lemma {:induction false} ValueRead(s: Text) returns (before: Text, t: Tree)
    requires Value(s).Ok?
    ensures IsGap(before) && s == before + Spell(t, Value(s).rest) && Spells(t, Skip(s), Value(s))
    decreases |s|, 3
  {
    before := Skipped(s);
    t := TokenRead(Skip(s));
  }

  lemma {:induction false} TokenRead(s: Text) returns (t: Tree)
    requires Token(s).Ok?
    ensures Spells(t, s, Token(s))
    decreases |s|, 2
  {
    assert s == [s[0]] + s[1..];
    if s[0] == '{' {
      t := ObjectRead(s[1..]);
    } else if s[0] == '[' {
      t := ArrayRead(s[1..]);
    } else if s[0] == '"' {
      var cs := CharsRead([], s[1..]);
      t := String(cs);
      assert [] + TextOf(cs) == TextOf(cs);
    } else if s[0] == 't' {
      LiteralRead(s, Bool(true));
      t := Word(Bool(true));
    } else if s[0] == 'f' {
      LiteralRead(s, Bool(false));
      t := Word(Bool(false));
    } else if s[0] == 'n' {
      LiteralRead(s, Null);
      t := Word(Null);
    } else {
      t := NumberRead(s);
    }
  }

  lemma BracketRead(s: Text) returns (gap: Text)
    requires Skip(s) != []
    ensures IsGap(gap) && s == gap + ([Skip(s)[0]] + Skip(s)[1..])
  {
    gap := Skipped(s);
  }

  lemma {:induction false} ObjectRead(s: Text) returns (t: Tree)
    requires ObjectValue(s).Ok?
    ensures Spells(t, "{" + s, ObjectValue(s))
    decreases |s|, 5
  {
    if Skip(s) != [] && Skip(s)[0] == '}' {
      var gap := BracketRead(s);
      t := EmptyObject(gap);
    } else {
      ObjectIsMembers(s);
      var fs := MembersRead([], s);
      t := Object(fs);
    }
  }

  lemma KeyRead(s: Text) returns (beforeKey: Text, key: seq<Char>, afterKey: Text)
    requires MemberKey(s).Ok?
    ensures IsGap(beforeKey) && AreChars(key) && IsGap(afterKey)
    ensures MemberKey(s).value == TextOf(key)
    ensures s == beforeKey + ("\"" + CharsText(key, afterKey + (":" + MemberKey(s).rest)))
  {
    var quote := Skip(s);
    beforeKey := Skipped(s);
    key := CharsRead([], quote[1..]);
    afterKey := Skipped(Chars([], quote[1..]).rest);
    assert [] + TextOf(key) == TextOf(key);
    var colon := Skip(Chars([], quote[1..]).rest);
    KeyJoins(quote, colon, CharsText(key, afterKey + colon));
  }

  lemma KeyJoins(quote: Text, colon: Text, key: Text)
    requires quote != [] && quote[0] == '"' && quote[1..] == key && colon != [] && colon[0] == ':'
    ensures quote == "\"" + key && colon == ":" + colon[1..]
  {
  }

  /** One turn of the object loop. */
  lemma MembersTurn(done: seq<Entry>, s: Text, next: Text)
    requires Member(s).Ok? && Skip(Member(s).rest) == next && next != []
    ensures var entries := SetKey(done, Member(s).value.0, Member(s).value.1);
      && (next[0] == ',' ==> Members(done, s) == Members(entries, next[1..]))
      && (next[0] == '}' ==> Members(done, s) == Ok(Obj(entries), next[1..]))
  {
  }

  lemma {:induction false} MembersRead(done: seq<Entry>, s: Text) returns (fs: Fields)
    requires Members(done, s).Ok?
    ensures AreFields(fs) && s == FieldsText(fs, Members(done, s).rest)
    ensures Members(done, s).value == Obj(SetAll(done, EntriesOf(fs)))
    decreases |s|, 3
  {
    var beforeKey, key, afterKey := KeyRead(s);
    var before, tree := ValueRead(MemberKey(s).rest);
    var after := Skipped(Member(s).rest);
    var next := Skip(Member(s).rest);
    MembersTurn(done, s, next);
    if next[0] == ',' {
      var others := MembersRead(SetKey(done, TextOf(key), ValueOf(tree)), next[1..]);
      fs := Field(beforeKey, key, afterKey, before, tree, after, others);
      SetAllStep(done, TextOf(key), ValueOf(tree), EntriesOf(others));
    } else {
      fs := LastField(beforeKey, key, afterKey, before, tree, after);
      SetAllStep(done, TextOf(key), ValueOf(tree), []);
    }
    FieldJoins(fs, s, next, Members(done, s).rest);
  }

  lemma FieldJoins(fs: Fields, s: Text, next: Text, rest: Text)
    requires s == fs.beforeKey + ("\"" + CharsText(fs.key, fs.afterKey +
                    (":" + (fs.before + Spell(fs.tree, fs.after + next)))))
    requires next != []
    requires if fs.Field? then next[0] == ',' && next[1..] == FieldsText(fs.others, rest)
             else next[0] == '}' && next[1..] == rest
    ensures s == FieldsText(fs, rest)
  {
    assert next == [next[0]] + next[1..];
    assert AfterField(fs, rest) == next;
  }

  lemma {:induction false} ArrayRead(s: Text) returns (t: Tree)
    requires ArrayValue(s).Ok?
    ensures Spells(t, "[" + s, ArrayValue(s))
    decreases |s|, 5
  {
    if Skip(s) != [] && Skip(s)[0] == ']' {
      var gap := BracketRead(s);
      t := EmptyArray(gap);
    } else {
      ArrayIsItems(s);
      var es := ItemsRead([], s);
      t := Array(es);
      assert [] + ItemsOf(es) == ItemsOf(es);
    }
  }

  lemma {:induction false} ItemsRead(done: seq<Json>, s: Text) returns (es: Elements)
    requires Items(done, s).Ok?
    ensures AreElements(es) && s == ElementsText(es, Items(done, s).rest)
    ensures Items(done, s).value == Arr(done + ItemsOf(es))
    decreases |s|, 4
  {
    var before, tree := ValueRead(s);
    var after := Skipped(Value(s).rest);
    var next := Skip(Value(s).rest);
    NextItem(done, s, ValueOf(tree), after + next, next);
    if next[0] == ',' {
      var others := ItemsRead(done + [ValueOf(tree)], next[1..]);
      es := Element(before, tree, after, others);
      AppendStep(done, ValueOf(tree), ItemsOf(others));
    } else {
      es := LastElement(before, tree, after);
    }
    ElementJoins(es, s, next, Items(done, s).rest);
  }

  lemma ElementJoins(es: Elements, s: Text, next: Text, rest: Text)
    requires s == es.before + Spell(es.tree, es.after + next) && next != []
    requires if es.Element? then next[0] == ',' && next[1..] == ElementsText(es.others, rest)
             else next[0] == ']' && next[1..] == rest
    ensures s == ElementsText(es, rest)
  {
    assert next == [next[0]] + next[1..];
    assert AfterElement(es, rest) == next;
  }

  ghost predicate IsDocument(raw: Text, before: Text, t: Tree, after: Text) {
    IsGap(before) && IsTree(t) && IsGap(after) && raw == before + Spell(t, after)
  }

  lemma DecodedIsDocument(raw: Text) returns (before: Text, t: Tree, after: Text)
    requires Decode(raw).Ok?
    ensures IsDocument(raw, before, t, after) && ValueOf(t) == Decode(raw).value
  {
    before, t := ValueRead(raw);
    after := Skipped(Value(raw).rest);
    assert after + [] == after;
  }

  /** A text decodes to a value exactly when it is a spelling of that value. */
  lemma DecodesExactlyDocuments(raw: Text, value: Json)
    ensures Decode(raw) == Ok(value, []) <==>
            exists before, t, after :: IsDocument(raw, before, t, after) && ValueOf(t) == value
  {
    if Decode(raw) == Ok(value, []) {
      var before, t, after := DecodedIsDocument(raw);
    }
    if before, t, after :| IsDocument(raw, before, t, after) && ValueOf(t) == value {
      DocumentDecodes(before, t, after);
    }
  }

  // ----- what decoded values look like -----

  /** Integers of 64 bits, and objects without repeated keys, all the way down. */
  ghost predicate IsRegular(v: Json) {
    match v
    case Int(n) => IsInt64(n)
    case Arr(items) => forall i :: 0 <= i < |items| ==> IsRegular(items[i])
    case Obj(entries) => DistinctKeys(entries) && forall i :: 0 <= i < |entries| ==> IsRegular(entries[i].1)
    case _ => true
  }

  ghost predicate AreRegular(entries: seq<Entry>) {
    DistinctKeys(entries) && forall i :: 0 <= i < |entries| ==> IsRegular(entries[i].1)
  }

  lemma {:induction false} SetKeepsValues(entries: seq<Entry>, key: Text, value: Json)
    requires IsRegular(value) && forall i :: 0 <= i < |entries| ==> IsRegular(entries[i].1)
    ensures forall i :: 0 <= i < |SetKey(entries, key, value)| ==> IsRegular(SetKey(entries, key, value)[i].1)
  {
    if entries != [] && entries[0].0 != key {
      SetKeepsValues(entries[1..], key, value);
    }
  }

  lemma SetKeepsRegular(entries: seq<Entry>, key: Text, value: Json)
    requires AreRegular(entries) && IsRegular(value)
    ensures AreRegular(SetKey(entries, key, value))
  {
    SetKeepsDistinct(entries, key, value);
    SetKeepsValues(entries, key, value);
  }

  lemma {:induction false} SetAllRegular(done: seq<Entry>, entries: seq<Entry>)
    requires AreRegular(done) && forall i :: 0 <= i < |entries| ==> IsRegular(entries[i].1)
    ensures AreRegular(SetAll(done, entries))
    decreases |entries|
  {
    if entries != [] {
      SetKeepsRegular(done, entries[0].0, entries[0].1);
      SetAllRegular(SetKey(done, entries[0].0, entries[0].1), entries[1..]);
    }
  }

  lemma {:induction false} TreeIsRegular(t: Tree)
    requires IsTree(t)
    ensures IsRegular(ValueOf(t))
  {
    match t
    case Array(elements) => ElementsAreRegular(elements);
    case Object(fields) =>
      FieldsAreRegular(fields);
      SetAllRegular([], EntriesOf(fields));
    case _ =>
  }

  lemma {:induction false} ElementsAreRegular(es: Elements)
    requires AreElements(es)
    ensures forall i :: 0 <= i < |ItemsOf(es)| ==> IsRegular(ItemsOf(es)[i])
  {
    TreeIsRegular(es.tree);
    if es.Element? {
      ElementsAreRegular(es.others);
    }
  }

  lemma {:induction false} FieldsAreRegular(fs: Fields)
    requires AreFields(fs)
    ensures forall i :: 0 <= i < |EntriesOf(fs)| ==> IsRegular(EntriesOf(fs)[i].1)
  {
    TreeIsRegular(fs.tree);
    if fs.Field? {
      FieldsAreRegular(fs.others);
    }
  }

  /** Whatever the input repeats or overflows, the decoded value is regular. */
  lemma DecodedIsRegular(raw: Text)
    requires Decode(raw).Ok?
    ensures IsRegular(Decode(raw).value)
  {
    var before, t, after := DecodedIsDocument(raw);
    TreeIsRegular(t);
  }
}
