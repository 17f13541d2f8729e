/** The string-keyed dictionary a localized-strings group keeps its items in:
    entries kept in ascending key order, so that its keys are enumerated
    sorted, the way the runtime's `Dictionary` keeps them. */
module StringDictionary {
  import opened Basics

  /** The order of `WString` keys: character by character by code, a proper
      prefix before the longer text. */
  predicate Below(a: string, b: string)
    decreases |a|
  {
    if a == [] then b != []
    else if b == [] then false
    else if a[0] != b[0] then a[0] < b[0]
    else Below(a[1..], b[1..])
  }

  lemma {:induction false} BelowIrreflexive(a: string)
    ensures !Below(a, a)
    decreases |a|
  {
    if a != [] {
      BelowIrreflexive(a[1..]);
    }
  }

  lemma {:induction false} BelowTransitive(a: string, b: string, c: string)
    requires Below(a, b) && Below(b, c)
    ensures Below(a, c)
    decreases |a|
  {
    if a != [] && b != [] && c != [] && a[0] == b[0] && b[0] == c[0] {
      BelowTransitive(a[1..], b[1..], c[1..]);
    }
  }

  lemma {:induction false} BelowTotal(a: string, b: string)
    ensures a == b || Below(a, b) || Below(b, a)
    decreases |a|
  {
    if a != [] && b != [] && a[0] == b[0] {
      BelowTotal(a[1..], b[1..]);
      if a[1..] == b[1..] {
        assert a == [a[0]] + a[1..] && b == [b[0]] + b[1..];
      }
    }
  }

  /** Strictly ascending keys: sorted and without duplicates. */
  predicate Ascending(keys: seq<string>)
  {
    forall i, j :: 0 <= i < j < |keys| ==> Below(keys[i], keys[j])
  }

  datatype Dictionary<V> = Dictionary(entries: seq<(string, V)>)

  function KeysOf<V>(entries: seq<(string, V)>): (r: seq<string>)
    ensures |r| == |entries|
    ensures forall i :: 0 <= i < |entries| ==> r[i] == entries[i].0
  {
    if entries == [] then [] else [entries[0].0] + KeysOf(entries[1..])
  }

  /** `Keys()`: the keys in ascending order. */
  function Keys<V>(d: Dictionary<V>): seq<string>
  {
    KeysOf(d.entries)
  }

  predicate Valid<V>(d: Dictionary<V>)
  {
    Ascending(Keys(d))
  }

  function Empty<V>(): (r: Dictionary<V>)
    ensures Valid(r) && Keys(r) == []
  {
    Dictionary([])
  }

  predicate Contains<V>(d: Dictionary<V>, key: string)
  {
    key in Keys(d)
  }

  function LookupIn<V>(entries: seq<(string, V)>, key: string): (r: Option<V>)
    ensures r.None? <==> key !in KeysOf(entries)
  {
    if entries == [] then None
    else if entries[0].0 == key then Some(entries[0].1)
    else LookupIn(entries[1..], key)
  }

  function Lookup<V>(d: Dictionary<V>, key: string): Option<V>
  {
    LookupIn(d.entries, key)
  }

  function InsertIn<V>(entries: seq<(string, V)>, key: string, value: V): (r: seq<(string, V)>)
    ensures |r| == |entries| + 1
    ensures forall k :: k in KeysOf(r) <==> k in KeysOf(entries) || k == key
    ensures LookupIn(r, key) == Some(value) || key in KeysOf(entries)
    ensures forall k :: k != key ==> LookupIn(r, k) == LookupIn(entries, k)
  {
    if entries == [] then [(key, value)]
    else if Below(key, entries[0].0) then [(key, value)] + entries
    else [entries[0]] + InsertIn(entries[1..], key, value)
  }

  /** A key below every key of an ascending list can go in front of it. */
  lemma ConsAscending(key: string, keys: seq<string>)
    requires Ascending(keys)
    requires forall j :: 0 <= j < |keys| ==> Below(key, keys[j])
    ensures Ascending([key] + keys)
  {
    var r := [key] + keys;
    forall i, j | 0 <= i < j < |r| ensures Below(r[i], r[j]) {
      assert r[j] == keys[j - 1];
      if i > 0 { assert r[i] == keys[i - 1]; }
    }
  }

  lemma {:induction false} InsertAscending<V>(entries: seq<(string, V)>, key: string, value: V)
    requires Ascending(KeysOf(entries)) && key !in KeysOf(entries)
    ensures Ascending(KeysOf(InsertIn(entries, key, value)))
  {
    if entries == [] {
    } else if Below(key, entries[0].0) {
      InsertFrontAscending(entries, key, value);
    } else {
      var rest := entries[1..];
      var ks := KeysOf(entries);
      assert KeysOf(rest) == ks[1..];
      InsertAscending(rest, key, value);
      BelowTotal(key, ks[0]);
      var tail := KeysOf(InsertIn(rest, key, value));
      forall j | 0 <= j < |tail| ensures Below(ks[0], tail[j]) {
        assert tail[j] in tail;
        if tail[j] != key {
          var m :| 0 <= m < |ks[1..]| && ks[1..][m] == tail[j];
          assert ks[m + 1] == tail[j];
        }
      }
      ConsAscending(ks[0], tail);
      assert KeysOf(InsertIn(entries, key, value)) == [ks[0]] + tail;
    }
  }

  lemma InsertFrontAscending<V>(entries: seq<(string, V)>, key: string, value: V)
    requires entries != [] && Below(key, entries[0].0)
    requires Ascending(KeysOf(entries))
    ensures Ascending(KeysOf([(key, value)] + entries))
  {
    var ks := KeysOf(entries);
    forall j | 0 <= j < |ks| ensures Below(key, ks[j]) {
      if j > 0 { BelowTransitive(key, ks[0], ks[j]); }
    }
    ConsAscending(key, ks);
    assert ([(key, value)] + entries)[1..] == entries;
  }

  /** `Add(key, value)` of a key not yet present: the key joins the sorted
      keys, maps to `value`, and every other key keeps its value. */
  function Add<V>(d: Dictionary<V>, key: string, value: V): (r: Dictionary<V>)
    requires Valid(d) && !Contains(d, key)
    ensures Valid(r)
    ensures |Keys(r)| == |Keys(d)| + 1
    ensures forall k :: Contains(r, k) <==> Contains(d, k) || k == key
    ensures Lookup(r, key) == Some(value)
    ensures forall k :: k != key ==> Lookup(r, k) == Lookup(d, k)
  {
    InsertAscending(d.entries, key, value);
    Dictionary(InsertIn(d.entries, key, value))
  }

  /** Ascending keys hold no key twice. */
  lemma AscendingDistinct(keys: seq<string>)
    requires Ascending(keys)
    ensures forall i, j :: 0 <= i < j < |keys| ==> keys[i] != keys[j]
  {
    forall i, j | 0 <= i < j < |keys| ensures keys[i] != keys[j] {
      BelowIrreflexive(keys[i]);
    }
  }
}
