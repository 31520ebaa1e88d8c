// The five in-memory namespace maps of libjade/nvs_flash.c: items in insertion order, one per key.
module SettingsStore {
  import opened Options
  import opened SettingsFields

  type Items = seq<Item>

  ghost predicate Distinct(items: Items) {
    forall i, j :: 0 <= i < j < |items| ==> items[i].key != items[j].key
  }

  function Lookup(items: Items, key: Bytes): Option<Bytes> {
    if items == [] then None
    else if items[0].key == key then Some(items[0].value)
    else Lookup(items[1..], key)
  }

  // wally_map_replace: in place, or at the end.
  function Replace(items: Items, key: Bytes, value: Bytes): Items {
    if items == [] then [Item(key, value)]
    else if items[0].key == key then [Item(key, value)] + items[1..]
    else [items[0]] + Replace(items[1..], key, value)
  }

  // wally_map_remove: the items after it move down.
  function Remove(items: Items, key: Bytes): Items {
    if items == [] then []
    else if items[0].key == key then items[1..]
    else [items[0]] + Remove(items[1..], key)
  }

  ghost predicate Holds(items: Items, key: Bytes) {
    exists i :: 0 <= i < |items| && items[i].key == key
  }

  lemma {:induction false} LookupAt(items: Items, i: nat)
    requires Distinct(items) && i < |items|
    ensures Lookup(items, items[i].key) == Some(items[i].value)
  {
    if i > 0 {
      assert items[0].key != items[i].key;
      LookupAt(items[1..], i - 1);
    }
  }

  lemma {:induction false} LookupHolds(items: Items, key: Bytes)
    ensures Lookup(items, key).Some? <==> Holds(items, key)
  {
    if items != [] && items[0].key != key {
      LookupHolds(items[1..], key);
      if Holds(items, key) {
        var i :| 0 <= i < |items| && items[i].key == key;
        assert items[1..][i - 1].key == key;
      }
    }
  }

  lemma {:induction false} ReplaceLooksUp(items: Items, key: Bytes, value: Bytes, k: Bytes)
    ensures Lookup(Replace(items, key, value), k) == if k == key then Some(value) else Lookup(items, k)
  {
    if items != [] && items[0].key != key {
      ReplaceLooksUp(items[1..], key, value, k);
    }
  }

  lemma {:induction false} RemoveLooksUp(items: Items, key: Bytes, k: Bytes)
    requires Distinct(items)
    ensures Lookup(Remove(items, key), k) == if k == key then None else Lookup(items, k)
  {
    if items != [] {
      if items[0].key == key {
        LookupHolds(items[1..], key);
      } else {
        RemoveLooksUp(items[1..], key, k);
      }
    }
  }

  lemma {:induction false} ReplaceDistinct(items: Items, key: Bytes, value: Bytes)
    requires Distinct(items)
    ensures Distinct(Replace(items, key, value))
    ensures forall k :: Holds(Replace(items, key, value), k) <==> k == key || Holds(items, k)
  {
    hide Distinct;
    DistinctByLookup(items);
    var r := Replace(items, key, value);
    forall k ensures Holds(r, k) <==> k == key || Holds(items, k) {
      ReplaceLooksUp(items, key, value, k);
      LookupHolds(r, k);
      LookupHolds(items, k);
    }
    ReplaceKeys(items, key, value);
  }

  lemma DistinctByLookup(items: Items)
    requires Distinct(items)
    ensures items != [] ==> Distinct(items[1..]) && !Holds(items[1..], items[0].key)
  {
  }

  lemma {:induction false} ReplaceKeys(items: Items, key: Bytes, value: Bytes)
    requires Distinct(items)
    ensures Distinct(Replace(items, key, value))
  {
    if items != [] {
      DistinctByLookup(items);
      if items[0].key != key {
        var r := Replace(items[1..], key, value);
        ReplaceKeys(items[1..], key, value);
        ReplaceLooksUp(items[1..], key, value, items[0].key);
        LookupHolds(items[1..], items[0].key);
        LookupHolds(r, items[0].key);
        assert forall j :: 0 <= j < |r| ==> r[j].key != items[0].key;
      }
    }
  }

  lemma {:induction false} RemoveDistinct(items: Items, key: Bytes)
    requires Distinct(items)
    ensures Distinct(Remove(items, key))
  {
    if items != [] {
      DistinctByLookup(items);
      if items[0].key != key {
        var r := Remove(items[1..], key);
        RemoveDistinct(items[1..], key);
        RemoveLooksUp(items[1..], key, items[0].key);
        LookupHolds(items[1..], items[0].key);
        LookupHolds(r, items[0].key);
        assert forall j :: 0 <= j < |r| ==> r[j].key != items[0].key;
      }
    }
  }

  // A key not there yet goes to the end.
  lemma {:induction false} ReplaceAppends(items: Items, key: Bytes, value: Bytes)
    requires !Holds(items, key)
    ensures Replace(items, key, value) == items + [Item(key, value)]
  {
    if items != [] {
      assert items[0].key != key;
      assert forall i :: 0 <= i < |items[1..]| ==> items[1..][i] == items[i + 1];
      ReplaceAppends(items[1..], key, value);
    }
  }

  // ---------------------------------------------------------------- the five maps

  type Maps = seq<Items>

  ghost predicate MapsOk(maps: Maps) {
    |maps| == NAMESPACES && forall n :: 0 <= n < NAMESPACES ==> Distinct(maps[n])
  }

  const EMPTY: Maps := [[], [], [], [], []]
}
