/** Objects as JavaScript enumerates them: a list of entries, and the object such a list fills. */
module Entries {

  datatype Entry<V> = Entry(key: string, value: V)

  /** The own properties of an object, in the order they are enumerated. */
  ghost predicate Enumerates<V>(entries: seq<Entry<V>>, object_: map<string, V>) {
    && (forall i, j :: 0 <= i < j < |entries| ==> entries[i].key != entries[j].key)
    && (forall i :: 0 <= i < |entries| ==> entries[i].key in object_ && object_[entries[i].key] == entries[i].value)
    && (forall key :: key in object_ ==> exists i :: 0 <= i < |entries| && entries[i].key == key)
  }

  /** Assigning to this key gives an object another prototype, or does nothing; it makes no property. */
  const PROTO := "__proto__"

  /** The object filled from the list by assignments: the last value of a key stays. */
  function ToObject<V>(entries: seq<Entry<V>>): map<string, V> {
    if entries == [] then map[]
    else
      var last := |entries| - 1;
      var filled := ToObject(entries[..last]);
      if entries[last].key == PROTO then filled else filled[entries[last].key := entries[last].value]
  }

  lemma {:induction false} ObjectEntry<V>(entries: seq<Entry<V>>, key: string)
    ensures key in ToObject(entries) <==> key != PROTO && exists i :: 0 <= i < |entries| && entries[i].key == key
    ensures key in ToObject(entries) ==> Entry(key, ToObject(entries)[key]) in entries
  {
    if entries != [] {
      var last := |entries| - 1;
      ObjectEntry(entries[..last], key);
      if key in ToObject(entries[..last]) {
        assert Entry(key, ToObject(entries[..last])[key]) in entries[..last];
      }
    }
  }

  /** An object is filled from its own entries if and only if it has none of that key. */
  lemma EnumerationIsObjectIff<V>(entries: seq<Entry<V>>, object_: map<string, V>)
    requires Enumerates(entries, object_)
    ensures ToObject(entries) == object_ <==> PROTO !in object_
  {
    forall key ensures key in ToObject(entries) <==> key in object_ && key != PROTO {
      ObjectEntry(entries, key);
    }
    forall key | key in object_ && key != PROTO ensures ToObject(entries)[key] == object_[key] {
      ObjectEntry(entries, key);
    }
  }
}
