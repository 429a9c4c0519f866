// The insertion-ordered map of the duplicate-code tool (tools/cleanup/cpd_patterns.cpp
// OrderedMap) and what filling one leaves in it.
module OrderedMaps {
  import opened Wrappers

  datatype Pair<+V> = Pair(key: string, value: V)

  // ---------------------------------------------------------------------------
  // The map as a list of pairs
  // ---------------------------------------------------------------------------

  predicate Distinct<V>(m: seq<Pair<V>>) {
    forall i, j :: 0 <= i < j < |m| ==> m[i].key != m[j].key
  }

  // The place of a key; |m| when it is absent.
  function Place<V>(m: seq<Pair<V>>, key: string): (i: nat)
    ensures i <= |m|
    ensures i < |m| ==> m[i].key == key
    ensures forall j :: 0 <= j < i ==> m[j].key != key
  {
    if m == [] then 0 else if m[0].key == key then 0 else 1 + Place(m[1..], key)
  }

  function Lookup<V>(m: seq<Pair<V>>, key: string): Option<V> {
    var i := Place(m, key);
    if i < |m| then Some(m[i].value) else None
  }

  // A replacement keeps the place of its key; a new key goes to the end.
  function Put<V>(m: seq<Pair<V>>, key: string, value: V): seq<Pair<V>> {
    var i := Place(m, key);
    if i < |m| then m[i := Pair(key, value)] else m + [Pair(key, value)]
  }

  function Keys<V>(m: seq<Pair<V>>): (r: seq<string>)
    ensures |r| == |m|
  {
    seq(|m|, i requires 0 <= i < |m| => m[i].key)
  }

  lemma PlaceIs<V>(m: seq<Pair<V>>, i: nat)
    requires Distinct(m) && i < |m|
    ensures Place(m, m[i].key) == i
  {
  }

  lemma PutLookup<V>(m: seq<Pair<V>>, key: string, value: V, other: string)
    ensures Lookup(Put(m, key, value), other) == if other == key then Some(value) else Lookup(m, other)
    ensures Distinct(m) ==> Distinct(Put(m, key, value))
    ensures Keys(Put(m, key, value)) == if Lookup(m, key).Some? then Keys(m) else Keys(m) + [key]
  {
    var r := Put(m, key, value);
    var i, j := Place(m, other), Place(r, other);
    assert forall k :: 0 <= k < |m| ==> r[k].key == m[k].key;
    if i < |m| {
      assert r[i].key == other;
      assert i == j;
    } else if other == key {
      assert r[|m|].key == other;
      assert j == |m|;
    } else {
      assert forall k :: 0 <= k < |r| ==> r[k].key != other;
      assert j == |r|;
    }
  }

  // ---------------------------------------------------------------------------
  // The map as a class
  // ---------------------------------------------------------------------------

  class OrderedMap<V> {
    var entries: seq<Pair<V>>
    var positions: map<string, nat>

    ghost predicate Valid()
      reads this
    {
      && Distinct(entries)
      && (forall i :: 0 <= i < |entries| ==> entries[i].key in positions && positions[entries[i].key] == i)
      && (forall k :: k in positions ==> positions[k] < |entries| && entries[positions[k]].key == k)
    }

    constructor ()
      ensures Valid() && entries == []
    {
      entries, positions := [], map[];
    }

    // The place of the key; none when it is absent.
    method Find(key: string) returns (found: Option<nat>)
      requires Valid()
      ensures found == if Place(entries, key) < |entries| then Some(Place(entries, key)) else None
      ensures Lookup(entries, key) == if found.Some? then Some(entries[found.value].value) else None
    {
      if key in positions {
        PlaceIs(entries, positions[key]);
        return Some(positions[key]);
      }
      found := None;
    }

    // The place of the key, which is added with `initial` when it is absent.
    method Get(key: string, initial: V) returns (i: nat)
      requires Valid()
      modifies this
      ensures Valid() && i == Place(old(entries), key) < |entries| && entries[i].key == key
      ensures entries == if i < |old(entries)| then old(entries) else old(entries) + [Pair(key, initial)]
    {
      var found := Find(key);
      if found.Some? {
        return found.value;
      }
      i := |entries|;
      positions := positions[key := i];
      entries := entries + [Pair(key, initial)];
    }

    // Stores through a place that Get returned.
    method Store(i: nat, value: V)
      requires Valid() && i < |entries|
      modifies this`entries
      ensures Valid() && entries == old(entries)[i := Pair(old(entries)[i].key, value)]
    {
      entries := entries[i := Pair(entries[i].key, value)];
    }

    method Set(key: string, value: V)
      requires Valid()
      modifies this
      ensures Valid() && entries == Put(old(entries), key, value)
    {
      var i := Get(key, value);
      Store(i, value);
    }

    function Size(): (n: nat)
      reads this
      requires Valid()
      ensures n == |positions|
    {
      SizeIs(entries, positions);
      |entries|
    }
  }

  lemma {:induction false} SizeIs<V>(entries: seq<Pair<V>>, positions: map<string, nat>)
    requires Distinct(entries)
    requires forall i :: 0 <= i < |entries| ==> entries[i].key in positions && positions[entries[i].key] == i
    requires forall k :: k in positions ==> positions[k] < |entries| && entries[positions[k]].key == k
    ensures |entries| == |positions|
  {
    if entries == [] {
      assert positions == map[];
    } else {
      var n := |entries| - 1;
      var rest := positions - {entries[n].key};
      SizeIs(entries[..n], rest);
      assert positions == rest[entries[n].key := n];
    }
  }

  // ---------------------------------------------------------------------------
  // Filling a map item by item
  // ---------------------------------------------------------------------------

  // What one item makes of the value under its key.
  type Step<!V, !X> = (Option<V>, X) -> V

  function Filled<V, X>(items: seq<Pair<X>>, step: Step<V, X>): seq<Pair<V>> {
    if items == [] then []
    else
      var m, item := Filled(items[..|items| - 1], step), items[|items| - 1];
      Put(m, item.key, step(Lookup(m, item.key), item.value))
  }

  // The items of one key, in order.
  function Under<X>(items: seq<Pair<X>>, key: string): seq<X> {
    if items == [] then []
    else
      var front, item := Under(items[..|items| - 1], key), items[|items| - 1];
      if item.key == key then front + [item.value] else front
  }

  function Folded<V, X>(items: seq<X>, step: Step<V, X>): Option<V> {
    if items == [] then None else Some(step(Folded(items[..|items| - 1], step), items[|items| - 1]))
  }

  // The keys in the order of their first appearance.
  function FirstKeys<X>(items: seq<Pair<X>>): seq<string> {
    if items == [] then []
    else
      var front, key := FirstKeys(items[..|items| - 1]), items[|items| - 1].key;
      if key in front then front else front + [key]
  }

  lemma KeysLookup<V>(m: seq<Pair<V>>, key: string)
    ensures key in Keys(m) <==> Lookup(m, key).Some?
  {
    var i := Place(m, key);
    if i < |m| {
      assert Keys(m)[i] == key;
    }
  }

  // However keys interleave, each has what its own items leave, and the keys stand in the
  // order in which they came first.
  lemma {:induction false} FilledIs<V, X>(items: seq<Pair<X>>, step: Step<V, X>, key: string)
    ensures Distinct(Filled(items, step))
    ensures Lookup(Filled(items, step), key) == Folded(Under(items, key), step)
    ensures Keys(Filled(items, step)) == FirstKeys(items)
  {
    if items != [] {
      var front, item := items[..|items| - 1], items[|items| - 1];
      var m := Filled(front, step);
      FilledIs(front, step, key);
      FilledIs(front, step, item.key);
      KeysLookup(m, item.key);
      PutLookup(m, item.key, step(Lookup(m, item.key), item.value), key);
      if item.key == key {
        assert Under(items, key)[..|Under(items, key)| - 1] == Under(front, key);
      }
    }
  }

  lemma {:induction false} FirstKeysAre<X>(items: seq<Pair<X>>)
    ensures forall i, j :: 0 <= i < j < |FirstKeys(items)| ==> FirstKeys(items)[i] != FirstKeys(items)[j]
    ensures forall k :: k in FirstKeys(items) <==> exists item :: item in items && item.key == k
  {
    if items != [] {
      var front, item := items[..|items| - 1], items[|items| - 1];
      FirstKeysAre(front);
      assert items == front + [item];
    }
  }

  // Setting pairs one after the other leaves the last value of every key.
  function Last<V>(): Step<V, V> {
    (old_, value) => value
  }

  function PutAll<V>(pairs: seq<Pair<V>>): seq<Pair<V>> {
    Filled(pairs, Last())
  }

  lemma PutAllIs<V>(pairs: seq<Pair<V>>, key: string)
    ensures Distinct(PutAll(pairs)) && Keys(PutAll(pairs)) == FirstKeys(pairs)
    ensures Lookup(PutAll(pairs), key) ==
      var under := Under(pairs, key); if under == [] then None else Some(under[|under| - 1])
  {
    FilledIs(pairs, Last<V>(), key);
  }
}
