/** The encoder itself, which appends to a builder. */
module JsonEncoder {
  import opened Bytes
  import opened JsonValue
  import opened JsonText
  import opened JsonSyntax
  import opened JsonPrinter
  import opened JsonMarshal

  // ----- spellings grow at the end -----

  lemma {:induction false} CharsTextMore(cs: seq<Char>, a: Text, b: Text)
    ensures CharsText(cs, a) + b == CharsText(cs, a + b)
  {
    if cs == [] {
      assert "\"" + a + b == "\"" + (a + b);
    } else {
      CharsTextMore(cs[1..], a, b);
      Regroup(CharText(cs[0]), CharsText(cs[1..], a), b);
    }
  }

  lemma Regroup(a: Text, b: Text, c: Text)
    ensures a + b + c == a + (b + c)
  {
  }

  lemma {:induction false} SpellMore(t: Tree, a: Text, b: Text)
    ensures Spell(t, a) + b == Spell(t, a + b)
    decreases t, 1
  {
    match t
    case Word(value) => Regroup(WordText(value), a, b);
    case Number(literal) => Regroup(literal, a, b);
    case String(chars) =>
      CharsTextMore(chars, a, b);
      Regroup("\"", CharsText(chars, a), b);
    case EmptyArray(gap) =>
      Regroup("]", a, b);
      Regroup(gap, "]" + a, b);
      Regroup("[", gap + ("]" + a), b);
    case EmptyObject(gap) =>
      Regroup("}", a, b);
      Regroup(gap, "}" + a, b);
      Regroup("{", gap + ("}" + a), b);
    case Array(elements) =>
      ElementsMore(elements, a, b);
      Regroup("[", ElementsText(elements, a), b);
    case Object(fields) =>
      FieldsMore(fields, a, b);
      Regroup("{", FieldsText(fields, a), b);
  }

  lemma {:induction false} ElementsMore(es: Elements, a: Text, b: Text)
    ensures ElementsText(es, a) + b == ElementsText(es, a + b)
    decreases es, 0
  {
    if es.Element? {
      ElementsMore(es.others, a, b);
      Regroup(",", ElementsText(es.others, a), b);
    } else {
      Regroup("]", a, b);
    }
    var next := AfterElement(es, a);
    SpellMore(es.tree, es.after + next, b);
    Regroup(es.after, next, b);
    Regroup(es.before, Spell(es.tree, es.after + next), b);
  }

  lemma {:induction false} FieldsMore(fs: Fields, a: Text, b: Text)
    ensures FieldsText(fs, a) + b == FieldsText(fs, a + b)
    decreases fs, 0
  {
    if fs.Field? {
      FieldsMore(fs.others, a, b);
      Regroup(",", FieldsText(fs.others, a), b);
    } else {
      Regroup("}", a, b);
    }
    AfterKeyMore(fs, a, b);
    var colon := AfterKey(fs, a);
    CharsTextMore(fs.key, fs.afterKey + colon, b);
    Regroup(fs.afterKey, colon, b);
    Regroup("\"", CharsText(fs.key, fs.afterKey + colon), b);
    Regroup(fs.beforeKey, "\"" + CharsText(fs.key, fs.afterKey + colon), b);
  }

  lemma {:induction false} AfterKeyMore(fs: Fields, a: Text, b: Text)
    requires AfterField(fs, a) + b == AfterField(fs, a + b)
    ensures AfterKey(fs, a) + b == AfterKey(fs, a + b)
    decreases fs, -1
  {
    var next := AfterField(fs, a);
    SpellMore(fs.tree, fs.after + next, b);
    Regroup(fs.after, next, b);
    Regroup(fs.before, Spell(fs.tree, fs.after + next), b);
    Regroup(":", fs.before + Spell(fs.tree, fs.after + next), b);
  }

  /** A spelled value is its own text and then what follows. */
  lemma SpellThen(t: Tree, s: Text)
    ensures Spell(t, s) == Spell(t, []) + s
  {
    SpellMore(t, [], s);
    assert [] + s == s;
  }

  // ----- strings -----

  function Written(cs: seq<Char>): Text { if cs == [] then [] else CharText(cs[0]) + Written(cs[1..]) }

  lemma {:induction false} CharsTextConcat(a: seq<Char>, b: seq<Char>, s: Text)
    ensures CharsText(a + b, s) == Written(a) + CharsText(b, s)
  {
    if a == [] {
      assert a + b == b;
    } else {
      assert (a + b)[1..] == a[1..] + b;
      CharsTextConcat(a[1..], b, s);
      Regroup(CharText(a[0]), Written(a[1..]), CharsText(b, s));
    }
  }

  lemma WrittenOne(c: Char)
    ensures Written([c]) == CharText(c)
  {
    assert [c][1..] == [];
    assert CharText(c) + [] == CharText(c);
  }

  lemma WrittenTwo(a: Char, b: Char)
    ensures Written([a, b]) == CharText(a) + CharText(b)
  {
    assert [a, b][1..] == [b];
    WrittenOne(b);
  }

  lemma WrittenReplacement()
    ensures Written(REPLACEMENT_CHARS) == REPLACEMENT
  {
    assert REPLACEMENT_CHARS[1..] == [Raw(0xbf as char), Raw(0xbd as char)];
    WrittenTwo(Raw(0xbf as char), Raw(0xbd as char));
  }

  method AsciiText(c: Byte) returns (out: Text)
    requires c as int < 0x80
    ensures out == CharText(AsciiChar(c))
  {
    match c
    case '"' => return "\\\"";
    case '\\' => return "\\\\";
    case '/' => return "\\/";
    case '\n' => return "\\n";
    case '\r' => return "\\r";
    case '\t' => return "\\t";
    case _ =>
      if c as int == 8 {
        return "\\b";
      }
      if c as int == 12 {
        return "\\f";
      }
      if c as int < 0x20 {
        out := "\\u00" + [LowerHex(c as int / 16), LowerHex(c as int % 16)];
        assert out == "\\u" + ("00" + [LowerHex(c as int / 16), LowerHex(c as int % 16)]);
        return;
      }
      return [c];
  }

  method EncodeString(start: Text, s: Text) returns (out: Text)
    ensures out == start + ("\"" + CharsText(Escaped(s), []))
  {
    out := start + "\"";
    var i := 0;
    Regroup(start, "\"", CharsText(Escaped(s), []));
    assert s[0..] == s;
    while i < |s|
      invariant i <= |s|
      invariant out + CharsText(Escaped(s[i..]), []) == start + ("\"" + CharsText(Escaped(s), []))
    {
      ghost var rest := CharsText(Escaped(s[i..]), []);
      var piece, size := Piece(s, i);
      ghost var after := CharsText(Escaped(s[i + size..]), []);
      Regroup(out, piece, after);
      out := out + piece;
      i := i + size;
    }
    assert s[i..] == [];
    out := out + "\"";
  }

  lemma EscapedHead(s: Text, head: seq<Char>, rest: Text)
    requires Escaped(s) == head + Escaped(rest)
    ensures CharsText(Escaped(s), []) == Written(head) + CharsText(Escaped(rest), [])
  {
    CharsTextConcat(head, Escaped(rest), []);
  }

  method RuneText(code: nat) returns (out: Text)
    requires code <= 0x10ffff
    ensures out == Written(RuneChars(code))
  {
    if code > 0xffff {
      var r := code - 0x10000;
      var high := 0xd800 + r / 0x400;
      var low := 0xdc00 + r % 0x400;
      WrittenTwo(Unicode(Hex4(high)), Unicode(Hex4(low)));
      return "\\u" + Hex4(high) + ("\\u" + Hex4(low));
    }
    WrittenOne(Unicode(Hex4(code)));
    return "\\u" + Hex4(code);
  }

  /** The text of the character, or of the invalid byte, at a position. */
  method Piece(s: Text, i: nat) returns (piece: Text, size: nat)
    requires i < |s|
    ensures 1 <= size <= |s| - i
    ensures CharsText(Escaped(s[i..]), []) == piece + CharsText(Escaped(s[i + size..]), [])
  {
    var c := s[i];
    var t := s[i..];
    if c as int < 0x80 {
      piece := AsciiText(c);
      size := 1;
      WrittenOne(AsciiChar(c));
      EscapedHead(t, [AsciiChar(c)], t[1..]);
    } else {
      var decoded := DecodeRune(t);
      if decoded.None? {
        piece := REPLACEMENT;
        size := 1;
        WrittenReplacement();
        EscapedHead(t, REPLACEMENT_CHARS, t[1..]);
      } else {
        size := decoded.value.size;
        piece := RuneText(decoded.value.code);
        EscapedHead(t, RuneChars(decoded.value.code), t[size..]);
      }
    }
    assert t[size..] == s[i + size..];
  }

  // ----- values -----

  /** What the array loop still has to write. */
  ghost function ItemsLeft(v: Json, i: nat): Text
    requires Exact(v) && v.Arr? && i <= |v.items|
  {
    if i == |v.items| then "]" else Comma(i == 0) + ElementsText(ElementsFrom(v, i), [])
  }

  function Comma(first: bool): Text { if first then [] else "," }

  lemma Appended(out: Text, first: bool, text: Text)
    ensures out + (Comma(first) + text) == (if first then out else out + ",") + text
  {
    assert out + ([] + text) == out + text;
    Regroup(out, ",", text);
  }

  lemma ItemsLeftHead(v: Json, i: nat)
    requires Exact(v) && v.Arr? && i < |v.items|
    ensures ItemsLeft(v, i) == Comma(i == 0) + (Marshal(v.items[i]) + ItemsLeft(v, i + 1))
  {
    var es := ElementsFrom(v, i);
    assert AfterElement(es, []) == ItemsLeft(v, i + 1);
    assert [] + ItemsLeft(v, i + 1) == ItemsLeft(v, i + 1);
    SpellThen(es.tree, ItemsLeft(v, i + 1));
    assert [] + Spell(es.tree, ItemsLeft(v, i + 1)) == Spell(es.tree, ItemsLeft(v, i + 1));
  }

  lemma ItemsLeftStep(out: Text, v: Json, i: nat)
    requires Exact(v) && v.Arr? && i < |v.items|
    ensures out + ItemsLeft(v, i) ==
            (if i == 0 then out else out + ",") + Marshal(v.items[i]) + ItemsLeft(v, i + 1)
  {
    var item, left := Marshal(v.items[i]), ItemsLeft(v, i + 1);
    ItemsLeftHead(v, i);
    Appended(out, i == 0, item + left);
    Regroup(if i == 0 then out else out + ",", item, left);
  }

  ghost function EntriesLeft(v: Json, i: nat): Text
    requires Exact(v) && v.Obj? && i <= |v.entries|
  {
    if i == |v.entries| then "}" else Comma(i == 0) + FieldsText(FieldsFrom(v, i), [])
  }

  function KeyText(key: Text): Text { "\"" + CharsText(Escaped(key), []) }

  lemma EntriesLeftHead(v: Json, i: nat)
    requires Exact(v) && v.Obj? && i < |v.entries|
    ensures EntriesLeft(v, i) ==
            Comma(i == 0) +
            (KeyText(v.entries[i].0) + (":" + (Marshal(v.entries[i].1) + EntriesLeft(v, i + 1))))
  {
    var fs := FieldsFrom(v, i);
    var left := EntriesLeft(v, i + 1);
    assert AfterField(fs, []) == left && [] + left == left;
    SpellThen(fs.tree, left);
    assert [] + Spell(fs.tree, left) == Spell(fs.tree, left);
    var colon := AfterKey(fs, []);
    assert [] + colon == colon;
    CharsTextMore(fs.key, [], colon);
    Regroup("\"", CharsText(fs.key, []), colon);
    assert [] + ("\"" + CharsText(fs.key, colon)) == "\"" + CharsText(fs.key, colon);
  }

  lemma EntriesLeftStep(out: Text, v: Json, i: nat)
    requires Exact(v) && v.Obj? && i < |v.entries|
    ensures out + EntriesLeft(v, i) ==
            (if i == 0 then out else out + ",") + KeyText(v.entries[i].0) + ":" + Marshal(v.entries[i].1) +
            EntriesLeft(v, i + 1)
  {
    var key, value, left := KeyText(v.entries[i].0), Marshal(v.entries[i].1), EntriesLeft(v, i + 1);
    var begun := if i == 0 then out else out + ",";
    EntriesLeftHead(v, i);
    Appended(out, i == 0, key + (":" + (value + left)));
    Regroup(begun, key, ":" + (value + left));
    Regroup(begun + key, ":", value + left);
    Regroup(begun + key + ":", value, left);
  }

  lemma MarshalOpens(v: Json)
    requires Exact(v)
    ensures v.Arr? ==> Marshal(v) == "[" + ItemsLeft(v, 0)
    ensures v.Obj? ==> Marshal(v) == "{" + EntriesLeft(v, 0)
  {
    if v.Arr? && v.items != [] {
      assert [] + ElementsText(ElementsFrom(v, 0), []) == ElementsText(ElementsFrom(v, 0), []);
    }
    if v.Obj? && v.entries != [] {
      assert [] + FieldsText(FieldsFrom(v, 0), []) == FieldsText(FieldsFrom(v, 0), []);
    }
  }

  method Encode(start: Text, v: Json) returns (out: Text)
    requires Exact(v)
    ensures out == start + Marshal(v)
    decreases v, 2
  {
    match v
    case Null => out := start + "null";
    case Bool(b) => out := start + if b then "true" else "false";
    case Int(n) => out := start + IntText(n);
    case Str(text) => out := EncodeString(start, text);
    case Arr(_) => out := EncodeItems(start, v);
    case Obj(_) => out := EncodeObject(start, v);
  }

  method EncodeItems(start: Text, v: Json) returns (out: Text)
    requires Exact(v) && v.Arr?
    ensures out == start + Marshal(v)
    decreases v, 0
  {
    MarshalOpens(v);
    Regroup(start, "[", ItemsLeft(v, 0));
    ghost var goal := start + Marshal(v);
    out := start + "[";
    for i := 0 to |v.items|
      invariant out + ItemsLeft(v, i) == goal
    {
      ItemsLeftStep(out, v, i);
      if i > 0 {
        out := out + ",";
      }
      out := Encode(out, v.items[i]);
    }
    out := out + "]";
  }

  method EncodeObject(start: Text, v: Json) returns (out: Text)
    requires Exact(v) && v.Obj?
    ensures out == start + Marshal(v)
    decreases v, 1
  {
    MarshalOpens(v);
    Regroup(start, "{", EntriesLeft(v, 0));
    ghost var goal := start + Marshal(v);
    out := start + "{";
    for i := 0 to |v.entries|
      invariant out + EntriesLeft(v, i) == goal
    {
      out := EncodeMember(out, v, i);
    }
    out := out + "}";
  }

  /** One turn of the member loop. */
  method EncodeMember(start: Text, v: Json, i: nat) returns (out: Text)
    requires Exact(v) && v.Obj? && i < |v.entries|
    ensures out + EntriesLeft(v, i + 1) == start + EntriesLeft(v, i)
    decreases v, 0
  {
    EntriesLeftStep(start, v, i);
    out := start;
    if i > 0 {
      out := out + ",";
    }
    out := EncodeEntry(out, v.entries[i].0, v.entries[i].1);
  }

  method EncodeEntry(start: Text, key: Text, value: Json) returns (out: Text)
    requires Exact(value)
    ensures out == start + KeyText(key) + ":" + Marshal(value)
    decreases value, 3
  {
    out := EncodeString(start, key);
    out := out + ":";
    out := Encode(out, value);
  }
}
