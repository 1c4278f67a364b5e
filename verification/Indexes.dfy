/** index/file_index.go and index/in_memory_index.go: two stores that hold one value for
    each key. Keys and values are what their JSON form stands for. */
module Indexes {

  datatype Lookup<+V> = Found(value: V) | Missing | Unreadable

  datatype Entry<K, V> = Entry(key: K, value: V)

  /** What a list of entries holds: for each key the first entry that has it. */
  function ToMap<K, V>(entries: seq<Entry<K, V>>): map<K, V> {
    if entries == [] then map[] else ToMap(entries[1..])[entries[0].key := entries[0].value]
  }

  lemma {:induction false} FirstEntry<K, V>(entries: seq<Entry<K, V>>, i: nat)
    requires i < |entries| && forall k | 0 <= k < i :: entries[k].key != entries[i].key
    ensures entries[i].key in ToMap(entries) && ToMap(entries)[entries[i].key] == entries[i].value
  {
    if i > 0 {
      FirstEntry(entries[1..], i - 1);
    }
  }

  lemma {:induction false} NoEntry<K, V>(entries: seq<Entry<K, V>>, key: K)
    requires forall k | 0 <= k < |entries| :: entries[k].key != key
    ensures key !in ToMap(entries)
  {
    if entries != [] {
      NoEntry(entries[1..], key);
    }
  }

  lemma {:induction false} EntryUpdated<K, V>(entries: seq<Entry<K, V>>, i: nat, value: V)
    requires i < |entries| && forall k | 0 <= k < i :: entries[k].key != entries[i].key
    ensures ToMap(entries[i := entries[i].(value := value)]) == ToMap(entries)[entries[i].key := value]
  {
    var next := entries[i := entries[i].(value := value)];
    if i == 0 {
      assert next[1..] == entries[1..];
    } else {
      EntryUpdated(entries[1..], i - 1, value);
      assert next[1..] == entries[1..][i - 1 := entries[i].(value := value)];
    }
  }

  lemma {:induction false} EntryAppended<K, V>(entries: seq<Entry<K, V>>, key: K, value: V)
    requires forall k | 0 <= k < |entries| :: entries[k].key != key
    ensures ToMap(entries + [Entry(key, value)]) == ToMap(entries)[key := value]
  {
    var next := entries + [Entry(key, value)];
    if entries == [] {
      assert next[1..] == [];
    } else {
      EntryAppended(entries[1..], key, value);
      assert next[1..] == entries[1..] + [Entry(key, value)];
    }
  }

  class FileIndex<K(==), V> {
    /** The entries in the file. */
    var entries: seq<Entry<K, V>>
    /** How often the file could not be read or written. */
    var failures: nat

    ghost function Contents(): map<K, V>
      reads this`entries
    {
      ToMap(entries)
    }

    constructor ()
      ensures Contents() == map[] && failures == 0
    {
      entries := [];
      failures := 0;
    }

    /** The first entry with this key, or none; -1 stands for none. */
    static method Position(raw: seq<Entry<K, V>>, key: K) returns (foundI: int)
      ensures foundI == -1 ==> forall k | 0 <= k < |raw| :: raw[k].key != key
      ensures foundI != -1 ==> 0 <= foundI < |raw| && raw[foundI].key == key
      ensures forall k | 0 <= k < foundI :: raw[k].key != key
    {
      foundI := -1;
      for i := 0 to |raw|
        invariant forall k | 0 <= k < i :: raw[k].key != key
      {
        if raw[i].key == key {
          return i;
        }
      }
    }

    method Find(key: K) returns (r: Lookup<V>)
      modifies this`failures
      ensures r.Found? ==> key in Contents() && Contents()[key] == r.value
      ensures r.Missing? ==> key !in Contents()
      ensures failures == old(failures) + if r.Unreadable? then 1 else 0
    {
      var readable: bool := *;
      if !readable {
        failures := failures + 1;
        return Unreadable;
      }
      var i := Position(entries, key);
      if i == -1 {
        NoEntry(entries, key);
        return Missing;
      }
      FirstEntry(entries, i);
      return Found(entries[i].value);
    }

    /** Updates the entry in its place or appends a new one, and rewrites the file. */
    method Save(key: K, value: V) returns (ok: bool)
      modifies this
      ensures Contents() == if ok then old(Contents())[key := value] else old(Contents())
      ensures failures == old(failures) + if ok then 0 else 1
    {
      var readable: bool, writable: bool := *, *;
      if !readable {
        failures := failures + 1;
        return false;
      }
      var raw := entries;
      var foundI := Position(raw, key);
      if foundI >= 0 {
        EntryUpdated(raw, foundI, value);
        raw := raw[foundI := raw[foundI].(value := value)];
      } else {
        EntryAppended(raw, key, value);
        raw := raw + [Entry(key, value)];
      }
      if !writable {
        failures := failures + 1;
        return false;
      }
      entries := raw;
      return true;
    }
  }

  class InMemoryIndex<K(==), V> {
    var entryMap: map<K, V>

    ghost function Contents(): map<K, V>
      reads this
    {
      entryMap
    }

    constructor ()
      ensures Contents() == map[]
    {
      entryMap := map[];
    }

    method Find(key: K) returns (r: Lookup<V>)
      ensures r.Found? ==> key in Contents() && Contents()[key] == r.value
      ensures r.Missing? ==> key !in Contents()
      ensures !r.Unreadable?
    {
      r := if key in entryMap then Found(entryMap[key]) else Missing;
    }

    method Save(key: K, value: V) returns (ok: bool)
      modifies this
      ensures ok && Contents() == old(Contents())[key := value]
    {
      entryMap := entryMap[key := value];
      ok := true;
    }
  }
}
