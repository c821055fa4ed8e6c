/** JSON values, and objects that keep their keys in order. */
module JsonValue {
  import opened Options
  import opened Bytes

  /** A double is the literal it was read from. */
  datatype Json = Null | Bool(truth: bool) | Int(number: int) | Double(literal: Text) | Str(text: Text)
                | Arr(items: seq<Json>) | Obj(entries: seq<Entry>)

  type Entry = (Text, Json)

  /** A replaced key keeps its position; a new one goes last. */
  function SetKey(entries: seq<Entry>, key: Text, value: Json): seq<Entry> {
    if entries == [] then [(key, value)]
    else if entries[0].0 == key then [(key, value)] + entries[1..]
    else [entries[0]] + SetKey(entries[1..], key, value)
  }

  ghost predicate DistinctKeys(entries: seq<Entry>) {
    forall i, j :: 0 <= i < j < |entries| ==> entries[i].0 != entries[j].0
  }

  ghost predicate HasKey(entries: seq<Entry>, key: Text) {
    exists i :: 0 <= i < |entries| && entries[i].0 == key
  }

  lemma {:induction false} SetNewKey(entries: seq<Entry>, key: Text, value: Json)
    requires !HasKey(entries, key)
    ensures SetKey(entries, key, value) == entries + [(key, value)]
  {
    if entries != [] {
      assert forall i :: 0 <= i < |entries[1..]| ==> entries[1..][i] == entries[i + 1];
      SetNewKey(entries[1..], key, value);
    }
  }

  lemma {:induction false} SetOldKey(entries: seq<Entry>, key: Text, value: Json, at: nat)
    requires DistinctKeys(entries) && at < |entries| && entries[at].0 == key
    ensures SetKey(entries, key, value) == entries[at := (key, value)]
  {
    if at > 0 {
      SetOldKey(entries[1..], key, value, at - 1);
    }
  }

  /** Setting keeps the keys apart. */
  lemma SetKeepsDistinct(entries: seq<Entry>, key: Text, value: Json)
    requires DistinctKeys(entries)
    ensures DistinctKeys(SetKey(entries, key, value))
  {
    if HasKey(entries, key) {
      var at :| 0 <= at < |entries| && entries[at].0 == key;
      SetOldKey(entries, key, value, at);
    } else {
      SetNewKey(entries, key, value);
    }
  }

  /** The ordered object of the encoder: a list of keys and a map of values. */
  class Object {
    var keys: seq<Text>
    var values: map<Text, Json>

    ghost predicate Valid()
      reads this
    {
      && (forall k :: k in keys <==> k in values)
      && (forall i, j :: 0 <= i < j < |keys| ==> keys[i] != keys[j])
    }

    function Entries(): (entries: seq<Entry>)
      requires Valid()
      reads this
      ensures |entries| == |keys| && DistinctKeys(entries)
    {
      seq(|keys|, i requires 0 <= i < |keys| reads this requires Valid() => (keys[i], values[keys[i]]))
    }

    constructor ()
      ensures Valid() && Entries() == []
    {
      keys := [];
      values := map[];
    }

    method Set(key: Text, value: Json)
      requires Valid()
      modifies this
      ensures Valid() && Entries() == SetKey(old(Entries()), key, value)
    {
      ghost var before := Entries();
      if key in values {
        var at :| 0 <= at < |keys| && keys[at] == key;
        SetOldKey(before, key, value, at);
      } else {
        assert !HasKey(before, key);
        SetNewKey(before, key, value);
      }
      if key !in values {
        keys := keys + [key];
      }
      values := values[key := value];
    }

    function Get(key: Text): (value: Option<Json>)
      requires Valid()
      reads this
      ensures value.Some? <==> HasKey(Entries(), key)
      ensures value.Some? ==> (key, value.value) in Entries()
    {
      if key in values then
        var at :| 0 <= at < |keys| && keys[at] == key;
        assert Entries()[at] == (key, values[key]);
        Some(values[key])
      else
        assert !HasKey(Entries(), key);
        None
    }
  }
}
