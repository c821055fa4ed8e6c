/** Values written out whole, and read back. */
module JsonMarshal {
  import opened Options
  import opened Bytes
  import opened JsonValue
  import opened JsonText
  import opened JsonSyntax
  import opened JsonPrinter

  /** Made of null, booleans, integers of 64 bits, texts, lists and objects with
      distinct keys. */
  ghost predicate Exact(v: Json) {
    match v
    case Int(n) => IsInt64(n)
    case Double(_) => false
    case Arr(items) => forall i :: 0 <= i < |items| ==> Exact(items[i])
    case Obj(entries) => DistinctKeys(entries) && forall i :: 0 <= i < |entries| ==> Exact(entries[i].1)
    case _ => true
  }

  /** All its texts and keys are valid UTF-8 within the basic plane. */
  ghost predicate AllBasic(v: Json) {
    match v
    case Str(text) => IsBasic(text)
    case Arr(items) => forall i :: 0 <= i < |items| ==> AllBasic(items[i])
    case Obj(entries) => forall i :: 0 <= i < |entries| ==> IsBasic(entries[i].0) && AllBasic(entries[i].1)
    case _ => true
  }

  // ----- the spelling the encoder chooses -----

  function IntText(n: int): Text { if n < 0 then "-" + Decimal(-n) else Decimal(n) }

  ghost function TreeOf(v: Json): Tree
    requires Exact(v)
    decreases v, 1, 0
  {
    match v
    case Null => Word(v)
    case Bool(_) => Word(v)
    case Int(n) => Number(IntText(n))
    case Str(text) => String(Escaped(text))
    case Arr(items) => if items == [] then EmptyArray([]) else Array(ElementsFrom(v, 0))
    case Obj(entries) => if entries == [] then EmptyObject([]) else Object(FieldsFrom(v, 0))
  }

  ghost function ElementsFrom(v: Json, i: nat): Elements
    requires Exact(v) && v.Arr? && i < |v.items|
    decreases v, 0, |v.items| - i
  {
    var tree := TreeOf(v.items[i]);
    if i + 1 == |v.items| then LastElement([], tree, []) else Element([], tree, [], ElementsFrom(v, i + 1))
  }

  ghost function FieldsFrom(v: Json, i: nat): Fields
    requires Exact(v) && v.Obj? && i < |v.entries|
    decreases v, 0, |v.entries| - i
  {
    var key, tree := Escaped(v.entries[i].0), TreeOf(v.entries[i].1);
    if i + 1 == |v.entries| then LastField([], key, [], [], tree, [])
    else Field([], key, [], [], tree, [], FieldsFrom(v, i + 1))
  }

  ghost function Marshal(v: Json): Text
    requires Exact(v)
  {
    Spell(TreeOf(v), [])
  }

  // ----- what is read back -----

  ghost function EchoOf(v: Json): Json
    decreases v, 1, 0
  {
    match v
    case Str(text) => Str(Echo(text))
    case Arr(_) => Arr(EchoItems(v, 0))
    case Obj(_) => Obj(SetAll([], EchoEntries(v, 0)))
    case _ => v
  }

  ghost function EchoItems(v: Json, i: nat): seq<Json>
    requires v.Arr? && i <= |v.items|
    decreases v, 0, |v.items| - i
  {
    if i == |v.items| then [] else [EchoOf(v.items[i])] + EchoItems(v, i + 1)
  }

  ghost function EchoEntries(v: Json, i: nat): seq<Entry>
    requires v.Obj? && i <= |v.entries|
    decreases v, 0, |v.entries| - i
  {
    if i == |v.entries| then []
    else [(Echo(v.entries[i].0), EchoOf(v.entries[i].1))] + EchoEntries(v, i + 1)
  }

  lemma NegativeRead(digits: Text)
    requires digits != [] && AllDigits(digits) && IsInt64(0 - Numeral(digits))
    ensures IsLiteral("-" + digits) && NumberOf("-" + digits) == Some(Int(0 - Numeral(digits)))
  {
    var text := "-" + digits;
    assert IsDigit(digits[0]) && text[1..] == digits;
    assert forall i :: 0 <= i < |text| ==> InNumber(text[i]);
  }

  lemma PositiveRead(digits: Text)
    requires digits != [] && AllDigits(digits) && IsInt64(Numeral(digits))
    ensures IsLiteral(digits) && NumberOf(digits) == Some(Int(Numeral(digits)))
  {
    assert IsDigit(digits[0]);
    assert forall i :: 0 <= i < |digits| ==> InNumber(digits[i]);
  }

  lemma IntRead(n: int)
    requires IsInt64(n)
    ensures IsLiteral(IntText(n)) && NumberOf(IntText(n)) == Some(Int(n))
  {
    DecimalIsNumeral(if n < 0 then -n else n);
    if n < 0 {
      NegativeRead(Decimal(-n));
    } else {
      PositiveRead(Decimal(n));
    }
  }

  lemma {:induction false} TreeIsEcho(v: Json)
    requires Exact(v)
    ensures IsTree(TreeOf(v)) && ValueOf(TreeOf(v)) == EchoOf(v)
    decreases v, 1, 0
  {
    match v
    case Int(n) => IntRead(n);
    case Str(text) => EscapedValue(text);
    case Arr(items) => if items != [] { ElementsAreEcho(v, 0); }
    case Obj(entries) => if entries != [] { FieldsAreEcho(v, 0); }
    case _ =>
  }

  lemma {:induction false} ElementsAreEcho(v: Json, i: nat)
    requires Exact(v) && v.Arr? && i < |v.items|
    ensures AreElements(ElementsFrom(v, i)) && ItemsOf(ElementsFrom(v, i)) == EchoItems(v, i)
    decreases v, 0, |v.items| - i
  {
    TreeIsEcho(v.items[i]);
    if i + 1 < |v.items| {
      ElementsAreEcho(v, i + 1);
    } else {
      assert EchoItems(v, i + 1) == [];
    }
  }

  lemma {:induction false} FieldsAreEcho(v: Json, i: nat)
    requires Exact(v) && v.Obj? && i < |v.entries|
    ensures AreFields(FieldsFrom(v, i)) && EntriesOf(FieldsFrom(v, i)) == EchoEntries(v, i)
    decreases v, 0, |v.entries| - i
  {
    TreeIsEcho(v.entries[i].1);
    EscapedValue(v.entries[i].0);
    if i + 1 < |v.entries| {
      FieldsAreEcho(v, i + 1);
    } else {
      assert EchoEntries(v, i + 1) == [];
    }
  }

  lemma {:induction false} EchoKeepsValue(v: Json)
    requires Exact(v) && AllBasic(v)
    ensures EchoOf(v) == v
    decreases v, 1, 0
  {
    match v
    case Str(text) => EchoKeepsBasic(text);
    case Arr(items) =>
      EchoKeepsItems(v, 0);
    case Obj(entries) =>
      EchoKeepsEntries(v, 0);
      assert [] + entries == entries;
      SetAllDistinct([], entries);
    case _ =>
  }

  lemma {:induction false} EchoKeepsItems(v: Json, i: nat)
    requires Exact(v) && AllBasic(v) && v.Arr? && i <= |v.items|
    ensures EchoItems(v, i) == v.items[i..]
    decreases v, 0, |v.items| - i
  {
    if i < |v.items| {
      EchoKeepsValue(v.items[i]);
      EchoKeepsItems(v, i + 1);
    }
  }

  lemma {:induction false} EchoKeepsEntries(v: Json, i: nat)
    requires Exact(v) && AllBasic(v) && v.Obj? && i <= |v.entries|
    ensures EchoEntries(v, i) == v.entries[i..]
    decreases v, 0, |v.entries| - i
  {
    if i < |v.entries| {
      EchoKeepsBasic(v.entries[i].0);
      EchoKeepsValue(v.entries[i].1);
      EchoKeepsEntries(v, i + 1);
    }
  }

  ghost predicate BasicEntries(entries: seq<Entry>) {
    forall i :: 0 <= i < |entries| ==> IsBasic(entries[i].0) && AllBasic(entries[i].1)
  }

  lemma {:induction false} SetKeepsBasic(entries: seq<Entry>, key: Text, value: Json)
    requires BasicEntries(entries) && IsBasic(key) && AllBasic(value)
    ensures BasicEntries(SetKey(entries, key, value))
  {
    if entries != [] && entries[0].0 != key {
      SetKeepsBasic(entries[1..], key, value);
    }
  }

  lemma {:induction false} SetAllKeepsBasic(done: seq<Entry>, entries: seq<Entry>)
    requires BasicEntries(done) && BasicEntries(entries)
    ensures BasicEntries(SetAll(done, entries))
    decreases |entries|
  {
    if entries != [] {
      SetKeepsBasic(done, entries[0].0, entries[0].1);
      SetAllKeepsBasic(SetKey(done, entries[0].0, entries[0].1), entries[1..]);
    }
  }

  lemma {:induction false} EchoIsAllBasic(v: Json)
    ensures AllBasic(EchoOf(v))
    decreases v, 1, 0
  {
    match v
    case Str(text) => EchoIsBasic(text);
    case Arr(_) => EchoItemsBasic(v, 0);
    case Obj(_) =>
      EchoEntriesBasic(v, 0);
      SetAllKeepsBasic([], EchoEntries(v, 0));
    case _ =>
  }

  lemma {:induction false} EchoItemsBasic(v: Json, i: nat)
    requires v.Arr? && i <= |v.items|
    ensures forall k :: 0 <= k < |EchoItems(v, i)| ==> AllBasic(EchoItems(v, i)[k])
    decreases v, 0, |v.items| - i
  {
    if i < |v.items| {
      EchoIsAllBasic(v.items[i]);
      EchoItemsBasic(v, i + 1);
    }
  }

  lemma {:induction false} EchoEntriesBasic(v: Json, i: nat)
    requires v.Obj? && i <= |v.entries|
    ensures BasicEntries(EchoEntries(v, i))
    decreases v, 0, |v.entries| - i
  {
    if i < |v.entries| {
      EchoIsBasic(v.entries[i].0);
      EchoIsAllBasic(v.entries[i].1);
      EchoEntriesBasic(v, i + 1);
    }
  }

  /** What is written is read back as the value with its texts echoed. */
  lemma MarshalReads(v: Json)
    requires Exact(v)
    ensures Decode(Marshal(v)) == Ok(EchoOf(v), [])
  {
    TreeIsEcho(v);
    DocumentDecodes([], TreeOf(v), []);
    assert [] + Marshal(v) == Marshal(v);
  }

  lemma EchoIsValueIff(v: Json)
    requires Exact(v)
    ensures EchoOf(v) == v <==> AllBasic(v)
  {
    EchoIsAllBasic(v);
    if AllBasic(v) {
      EchoKeepsValue(v);
    }
  }

  /** What is written is read back as the value itself, keys in order, exactly
      when all its texts and keys are basic. */
  lemma MarshalRoundTrip(v: Json)
    requires Exact(v)
    ensures Decode(Marshal(v)) == Ok(v, []) <==> AllBasic(v)
  {
    MarshalReads(v);
    EchoIsValueIff(v);
  }

  /** The face U+1F600 does not come back from its own encoding. */
  lemma FaceIsLost(face: Text)
    requires face == [0xf0 as char, 0x9f as char, 0x98 as char, 0x80 as char]
    ensures Decode(Marshal(Str(face))) == Ok(Str(REPLACEMENT + REPLACEMENT), [])
  {
    assert DecodeRune(face) == Some(Rune(0x1f600, 4));
    assert face[4..] == [];
    assert Echo(face) == REPLACEMENT + REPLACEMENT + Echo(face[4..]);
    assert EchoOf(Str(face)) == Str(REPLACEMENT + REPLACEMENT);
    MarshalReads(Str(face));
  }
}
