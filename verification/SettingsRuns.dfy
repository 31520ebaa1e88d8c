// What a restart sees. The store, the commit and reset calls of libjade/nvs_flash.c and libjade/libjade.c, and
// a host that keeps its old copy whenever it reports failure.
module SettingsRuns {
  import opened Options
  import opened SettingsFields
  import opened SettingsStore
  import opened SettingsFormat
  import opened SettingsBlob
  import opened SettingsSave

  // ---------------------------------------------------------------- what survives a save and a load

  function ItemsOf(es: seq<Entry>): (r: Items)
    ensures |r| == |es| && forall k :: 0 <= k < |r| ==> r[k] == es[k].item
  {
    seq(|es|, k requires 0 <= k < |es| => es[k].item)
  }

  // The listed fields of the default namespace, in range and in table order, and all the registrations.
  function Persistable(maps: Maps): Maps
    requires |maps| == NAMESPACES
  {
    maps[0 := ItemsOf(FieldEntries(maps[0], NUM_FIELDS))]
  }

  lemma {:induction false} ApplyConcat(maps: Maps, a: seq<Entry>, b: seq<Entry>)
    requires |maps| == NAMESPACES && AllPrintable(a) && AllPrintable(b)
    ensures Apply(maps, a + b) == Apply(Apply(maps, a), b)
    decreases |b|
  {
    if b == [] {
      assert a + b == a;
    } else {
      var most, e := b[..|b| - 1], b[|b| - 1];
      ApplyConcat(maps, a, most);
      ApplySnoc(maps, a + most, e);
      ApplySnoc(Apply(maps, a), most, e);
      assert a + b == a + most + [e] && b == most + [e];
    }
  }

  // Entries of one namespace with distinct keys, none there yet, go in one after the other.
  lemma {:induction false} ApplyFresh(maps: Maps, ns: nat, es: seq<Entry>)
    requires |maps| == NAMESPACES && ns < NAMESPACES && maps[ns] == [] && Distinct(ItemsOf(es)) && AllPrintable(es)
    requires forall k :: 0 <= k < |es| ==> es[k].ns == ns
    ensures Apply(maps, es) == maps[ns := ItemsOf(es)]
  {
    if es == [] {
      assert ItemsOf(es) == [];
    } else {
      var most, e := es[..|es| - 1], es[|es| - 1];
      assert ItemsOf(es) == ItemsOf(most) + [e.item];
      ApplyFresh(maps, ns, most);
      forall k | 0 <= k < |most| ensures ItemsOf(most)[k].key != e.item.key {
        assert ItemsOf(es)[k].key != ItemsOf(es)[|most|].key;
      }
      ReplaceAppends(ItemsOf(most), e.item.key, e.item.value);
    }
  }

  // Entry k of the list is for some field below n, and different entries are for different fields.
  lemma {:induction false} FieldsDistinct(prefs: Items, n: nat)
    requires n <= NUM_FIELDS
    ensures Distinct(ItemsOf(FieldEntries(prefs, n)))
    ensures forall k :: 0 <= k < |FieldEntries(prefs, n)| ==> FieldEntries(prefs, n)[k].ns == 0
    ensures forall k :: 0 <= k < |FieldEntries(prefs, n)| ==>
                          exists i :: 0 <= i < n && FieldEntries(prefs, n)[k].item.key == FieldKey(i)
  {
    hide FieldEntries, FieldEntry, FieldKey, Distinct, InRange, Lookup;
    if n == 0 {
      NoFieldEntries(prefs);
    } else {
      FieldsDistinct(prefs, n - 1);
      FieldsNext(prefs, n);
      EntryLookup(prefs, n - 1);
      var most, last := FieldEntries(prefs, n - 1), FieldEntry(prefs, n - 1);
      forall k | 0 <= k < |most|
        ensures most[k].item.key != FieldKey(n - 1)
        ensures exists i :: 0 <= i < n && most[k].item.key == FieldKey(i)
      {
        var i :| 0 <= i < n - 1 && most[k].item.key == FieldKey(i);
        SameField(i, n - 1);
      }
      if last == [] {
        assert most + last == most;
      } else {
        assert last == [last[0]];
        DistinctSnoc(most, last[0]);
        assert last[0].item.key == FieldKey(n - 1);
      }
    }
  }

  lemma NoFieldEntries(prefs: Items)
    ensures FieldEntries(prefs, 0) == [] && Distinct(ItemsOf([]))
  {
  }

  lemma DistinctSnoc(es: seq<Entry>, e: Entry)
    requires Distinct(ItemsOf(es)) && forall k :: 0 <= k < |es| ==> es[k].item.key != e.item.key
    ensures Distinct(ItemsOf(es + [e]))
  {
  }

  // A listed field below n, set within its width.
  ghost predicate Kept(prefs: Items, n: nat, key: Bytes)
    requires n <= NUM_FIELDS
  {
    && FieldOf(key).Some? && FieldOf(key).value < n
    && Lookup(prefs, key).Some? && InRange(FieldOf(key).value, |Lookup(prefs, key).value|)
  }

  // What a restored default namespace answers: the kept fields with their values, nothing else.
  lemma {:induction false} FieldsLookup(prefs: Items, n: nat, key: Bytes)
    requires n <= NUM_FIELDS
    ensures Lookup(ItemsOf(FieldEntries(prefs, n)), key) == if Kept(prefs, n, key) then Lookup(prefs, key) else None
  {
    hide FieldEntries, Lookup, Kept, FieldEntry, FieldKey, InRange;
    if n == 0 {
      NoFieldsKept(prefs, key);
    } else {
      FieldsLookup(prefs, n - 1, key);
      KeptNext(prefs, n, key);
      EntryLookup(prefs, n - 1);
      var most, last := FieldEntries(prefs, n - 1), FieldEntry(prefs, n - 1);
      FieldsNext(prefs, n);
      assert ItemsOf(most + last) == ItemsOf(most) + ItemsOf(last);
      if last != [] {
        assert ItemsOf(last) == [last[0].item];
        LookupSnoc(ItemsOf(most), last[0].item, key);
      } else {
        assert ItemsOf(most) + ItemsOf(last) == ItemsOf(most);
      }
    }
  }

  lemma NoFieldsKept(prefs: Items, key: Bytes)
    ensures Lookup(ItemsOf(FieldEntries(prefs, 0)), key) == None && !Kept(prefs, 0, key)
  {
    assert ItemsOf(FieldEntries(prefs, 0)) == [];
  }

  lemma FieldsNext(prefs: Items, n: nat)
    requires 0 < n <= NUM_FIELDS
    ensures FieldEntries(prefs, n) == FieldEntries(prefs, n - 1) + FieldEntry(prefs, n - 1)
  {
  }

  lemma EntryLookup(prefs: Items, i: nat)
    requires i < NUM_FIELDS
    ensures |FieldEntry(prefs, i)| <= 1 && (FieldEntry(prefs, i) != [] ==> FieldEntry(prefs, i)[0].ns == 0)
    ensures FieldEntry(prefs, i) != [] <==>
            Lookup(prefs, FieldKey(i)).Some? && InRange(i, |Lookup(prefs, FieldKey(i)).value|)
    ensures FieldEntry(prefs, i) != [] ==>
              FieldEntry(prefs, i)[0].item == Item(FieldKey(i), Lookup(prefs, FieldKey(i)).value)
  {
  }

  lemma KeptNext(prefs: Items, n: nat, key: Bytes)
    requires 0 < n <= NUM_FIELDS
    ensures key == FieldKey(n - 1) ==>
              && !Kept(prefs, n - 1, key)
              && (Kept(prefs, n, key) <==> Lookup(prefs, key).Some? && InRange(n - 1, |Lookup(prefs, key).value|))
    ensures key != FieldKey(n - 1) ==> (Kept(prefs, n, key) <==> Kept(prefs, n - 1, key))
  {
    hide FieldKey, InRange, Lookup, FieldOf;
    if FieldOf(key).Some? {
      SameField(FieldOf(key).value, n - 1);
    }
  }

  lemma {:induction false} LookupSnoc(items: Items, item: Item, key: Bytes)
    ensures Lookup(items + [item], key) ==
            if Lookup(items, key).Some? then Lookup(items, key)
            else if key == item.key then Some(item.value) else None
  {
    if items != [] {
      assert (items + [item])[1..] == items[1..] + [item];
      LookupSnoc(items[1..], item, key);
    }
  }

  lemma PrintableSplit(a: seq<Entry>, b: seq<Entry>)
    requires AllPrintable(a + b)
    ensures AllPrintable(a) && AllPrintable(b)
  {
    hide Printable;
    assert forall k :: 0 <= k < |a| ==> a[k] == (a + b)[k];
    assert forall k :: 0 <= k < |b| ==> b[k] == (a + b)[|a| + k];
  }

  lemma EmptyMaps()
    ensures |EMPTY| == NAMESPACES && forall k :: 0 <= k < NAMESPACES ==> EMPTY[k] == []
  {
  }

  // Namespaces 1 to n come from `maps`, the others stay.
  ghost predicate Merged(r: Maps, maps: Maps, start: Maps, n: nat)
    requires |r| == |maps| == |start| == NAMESPACES
  {
    forall k :: 0 <= k < NAMESPACES ==> r[k] == if 1 <= k <= n then maps[k] else start[k]
  }

  lemma {:induction false} RecordsLoad(maps: Maps, start: Maps, n: nat)
    requires MapsOk(maps) && |start| == NAMESPACES && n < NAMESPACES
    requires AllPrintable(Records(maps, n)) && forall k :: 1 <= k <= n ==> start[k] == []
    ensures Merged(Apply(start, Records(maps, n)), maps, start, n)
  {
    hide Records, Apply, AllPrintable, Distinct;
    if n == 0 {
      NoRecords(maps);
      ApplyNone(start);
    } else {
      var a, b := Records(maps, n - 1), UserEntries(n, maps[n]);
      RecordsStep(maps, n);
      PrintableSplit(a, b);
      RecordsLoad(maps, start, n - 1);
      ApplyConcat(start, a, b);
      assert ItemsOf(b) == maps[n];
      ApplyFresh(Apply(start, a), n, b);
    }
  }

  lemma NoRecords(maps: Maps)
    requires |maps| == NAMESPACES
    ensures Records(maps, 0) == [] && AllPrintable([])
  {
  }

  lemma RecordsStep(maps: Maps, n: nat)
    requires |maps| == NAMESPACES && 1 <= n < NAMESPACES
    ensures Records(maps, n) == Records(maps, n - 1) + UserEntries(n, maps[n])
  {
  }

  lemma StoreLoads(maps: Maps)
    requires MapsOk(maps) && AllPrintable(StoreEntries(maps))
    ensures Apply(EMPTY, StoreEntries(maps)) == Persistable(maps)
  {
    var a, b := FieldEntries(maps[0], NUM_FIELDS), Records(maps, NAMESPACES - 1);
    hide FieldEntries, Records, Apply, Printable, Distinct, ItemsOf;
    PrintableSplit(a, b);
    EmptyMaps();
    hide EMPTY;
    ApplyConcat(EMPTY, a, b);
    FieldsDistinct(maps[0], NUM_FIELDS);
    ApplyFresh(EMPTY, 0, a);
    RecordsLoad(maps, Apply(EMPTY, a), NAMESPACES - 1);
  }

  // Every blob the serializer writes is loaded, and into empty maps it restores exactly what persists.
  lemma SavedLoads(maps: Maps, digest: Bytes -> Digest)
    requires MapsOk(maps) && Writable(maps)
    ensures Loadable(Blob(maps, digest), digest)
    ensures Parse(Blob(maps, digest)[HEADER_LEN..]) == Some(StoreEntries(maps))
    ensures Apply(EMPTY, StoreEntries(maps)) == Persistable(maps)
  {
    EmptyMaps();
    assert |maps| == NAMESPACES;
    WritableOk(maps);
    AcceptsPrintable(StoreEntries(maps));
    BlobParts(maps, digest);
    hide StoreEntries, Print, Parse, Apply, Accepts, MAGIC, Persistable, MapsOk, AllPrintable, EMPTY, Blob, Writable;
    ParsePrint(StoreEntries(maps));
    StoreLoads(maps);
  }

  lemma BlobParts(maps: Maps, digest: Bytes -> Digest)
    requires |maps| == NAMESPACES && Writable(maps) && AllPrintable(StoreEntries(maps))
    ensures var body, blob := Print(StoreEntries(maps)), Blob(maps, digest);
            |blob| >= HEADER_LEN && blob[..8] == MAGIC && blob[8..12] == digest(body) && blob[HEADER_LEN..] == body
  {
    MagicLength();
    hide StoreEntries, Print, MAGIC, Accepts, AllPrintable;
  }

  lemma WritableOk(maps: Maps)
    requires |maps| == NAMESPACES && Writable(maps)
    ensures AllOk(StoreEntries(maps))
  {
  }

  // ---------------------------------------------------------------- runs

  // hostOk and mapOk are what the host and the map library answered; a restart finds room for so many entries.
  datatype Event =
    | SetHandler(on: bool)
    | Write(ns: nat, key: Bytes, value: Bytes, mapOk: bool)
    | Erase(ns: nat, key: Bytes, mapOk: bool)
    | Commit(ns: nat, hostOk: bool)
    | Reset(hostOk: bool)
    | Restart(room: nat)

  datatype Device = Device(maps: Maps, handler: bool, slot: Option<Bytes>)

  // The host: no bytes asks it to erase its copies; on failure the old copy stays.
  function Host(slot: Option<Bytes>, data: Bytes, ok: bool): Option<Bytes> {
    if !ok then slot else if data == [] then None else Some(data)
  }

  // The entries of the host's copy, if it is one the loader accepts.
  ghost function Entries(slot: Option<Bytes>, digest: Bytes -> Digest): (es: seq<Entry>)
    ensures AllPrintable(es)
  {
    if slot.Some? && Loadable(slot.value, digest) then Parse(slot.value[HEADER_LEN..]).value else []
  }

  function Min(a: nat, b: nat): nat {
    if a < b then a else b
  }

  function Front(es: seq<Entry>, n: nat): seq<Entry> {
    es[..Min(n, |es|)]
  }

  ghost function Boot(slot: Option<Bytes>, digest: Bytes -> Digest, room: nat): Maps {
    Apply(EMPTY, Front(Entries(slot, digest), room))
  }

  // The new state and what the caller is told.
  ghost function Step(d: Device, ev: Event, digest: Bytes -> Digest): (Device, bool)
    requires |d.maps| == NAMESPACES
  {
    match ev
    case SetHandler(on) => (d.(handler := on), true)
    case Write(ns, key, value, mapOk) =>
      if ns < NAMESPACES && mapOk then (d.(maps := d.maps[ns := Replace(d.maps[ns], key, value)]), true) else (d, false)
    case Erase(ns, key, mapOk) =>
      if ns < NAMESPACES && mapOk then (d.(maps := d.maps[ns := Remove(d.maps[ns], key)]), true) else (d, false)
    case Commit(ns, hostOk) =>
      if ns >= NAMESPACES then (d, false)
      else if !d.handler then (d, true)
      else if !Writable(d.maps) then (d, false)
      else (d.(slot := Host(d.slot, Blob(d.maps, digest), hostOk)), hostOk)
    case Reset(hostOk) =>
      if !d.handler then (d.(maps := EMPTY), true)
      else (d.(maps := EMPTY, slot := Host(d.slot, [], hostOk)), hostOk)
    case Restart(room) => (d.(maps := Boot(d.slot, digest, room), handler := false), true)
  }

  const NEW_DEVICE := Device(EMPTY, false, None)

  ghost function Run(evs: seq<Event>, digest: Bytes -> Digest): (d: Device)
    ensures |d.maps| == NAMESPACES
  {
    if evs == [] then NEW_DEVICE else Step(Run(evs[..|evs| - 1], digest), evs[|evs| - 1], digest).0
  }

  // The store as of the last commit that succeeded with a handler in place, unless a reset did after it.
  ghost function LastSaved(evs: seq<Event>, digest: Bytes -> Digest): Option<Maps> {
    if evs == [] then None
    else
      var before, ev := evs[..|evs| - 1], evs[|evs| - 1];
      var d := Run(before, digest);
      if d.handler && ev.Commit? && Step(d, ev, digest).1 then Some(d.maps)
      else if d.handler && ev.Reset? && Step(d, ev, digest).1 then None
      else LastSaved(before, digest)
  }

  lemma {:induction false} ApplyOk(maps: Maps, es: seq<Entry>)
    requires MapsOk(maps) && AllPrintable(es)
    ensures MapsOk(Apply(maps, es))
  {
    if es != [] {
      var m, e := Apply(maps, es[..|es| - 1]), es[|es| - 1];
      ApplyOk(maps, es[..|es| - 1]);
      ReplaceDistinct(m[e.ns], e.item.key, e.item.value);
    }
  }

  lemma {:induction false} RunOk(evs: seq<Event>, digest: Bytes -> Digest)
    ensures MapsOk(Run(evs, digest).maps)
  {
    if evs != [] {
      RunOk(evs[..|evs| - 1], digest);
      StepOk(Run(evs[..|evs| - 1], digest), evs[|evs| - 1], digest);
    }
  }

  lemma StepOk(d: Device, ev: Event, digest: Bytes -> Digest)
    requires MapsOk(d.maps)
    ensures MapsOk(Step(d, ev, digest).0.maps)
  {
    hide Apply, Loadable, Writable, Blob;
    match ev
    case Write(ns, key, value, mapOk) =>
      if ns < NAMESPACES {
        ReplaceDistinct(d.maps[ns], key, value);
      }
    case Erase(ns, key, mapOk) =>
      if ns < NAMESPACES {
        RemoveDistinct(d.maps[ns], key);
      }
    case Restart(room) =>
      ApplyOk(EMPTY, Front(Entries(d.slot, digest), room));
    case _ =>
  }

  // The host's copy is always the blob of the last saved store, whatever the run.
  lemma {:induction false} SlotIsLastSaved(evs: seq<Event>, digest: Bytes -> Digest)
    ensures var s := LastSaved(evs, digest);
            && (s.Some? ==> |s.value| == NAMESPACES && MapsOk(s.value) && Writable(s.value))
            && Run(evs, digest).slot == if s.None? then None else Some(Blob(s.value, digest))
  {
    if evs != [] {
      var before, ev := evs[..|evs| - 1], evs[|evs| - 1];
      SlotIsLastSaved(before, digest);
      RunOk(before, digest);
      SlotStep(Run(before, digest), ev, digest);
      hide Step, Blob, Writable;
    }
  }

  // The only steps that change the host's copy.
  lemma SlotStep(d: Device, ev: Event, digest: Bytes -> Digest)
    requires |d.maps| == NAMESPACES
    ensures d.handler && ev.Commit? && Step(d, ev, digest).1 ==>
              Writable(d.maps) && Step(d, ev, digest).0.slot == Some(Blob(d.maps, digest))
    ensures d.handler && ev.Reset? && Step(d, ev, digest).1 ==> Step(d, ev, digest).0.slot == None
    ensures !(d.handler && (ev.Commit? || ev.Reset?) && Step(d, ev, digest).1) ==> Step(d, ev, digest).0.slot == d.slot
  {
    hide Blob, Writable, Boot;
    if Writable(d.maps) {
      BlobNotEmpty(d.maps, digest);
    }
  }

  // A commit is never taken for an erase.
  lemma BlobNotEmpty(maps: Maps, digest: Bytes -> Digest)
    requires |maps| == NAMESPACES && Writable(maps)
    ensures |Blob(maps, digest)| >= HEADER_LEN && Blob(maps, digest) != []
  {
    hide StoreEntries, Print, Writable, Accepts;
    MagicLength();
  }

  // The entries a restart finds are those of the last saved store.
  lemma SavedEntries(evs: seq<Event>, digest: Bytes -> Digest)
    ensures LastSaved(evs, digest).Some? ==> |LastSaved(evs, digest).value| == NAMESPACES
    ensures var s := LastSaved(evs, digest);
            Entries(Run(evs, digest).slot, digest) == if s.None? then [] else StoreEntries(s.value)
  {
    hide LastSaved, Loadable, Blob, Persistable, Run, StoreEntries, Parse;
    SlotIsLastSaved(evs, digest);
    var s := LastSaved(evs, digest);
    if s.Some? {
      SavedLoads(s.value, digest);
    }
  }

  lemma RestartLoads(evs: seq<Event>, room: nat, digest: Bytes -> Digest)
    ensures Run(evs + [Restart(room)], digest).maps == Boot(Run(evs, digest).slot, digest, room)
  {
    hide Boot;
    assert (evs + [Restart(room)])[..|evs|] == evs;
  }

  // After any run at all, a restart loads exactly the persistable part of the last saved store, or nothing; if the
  // map library runs out of room, the entries in front of that point.
  lemma RestartSees(evs: seq<Event>, room: nat, digest: Bytes -> Digest)
    ensures LastSaved(evs, digest).None? ==> Run(evs + [Restart(room)], digest).maps == EMPTY
    ensures LastSaved(evs, digest).Some? ==>
              var s := LastSaved(evs, digest).value;
              && |s| == NAMESPACES && AllPrintable(StoreEntries(s))
              && Run(evs + [Restart(room)], digest).maps == Apply(EMPTY, Front(StoreEntries(s), room))
              && (Run(evs + [Restart(room)], digest).maps == Persistable(s) <==> room >= |StoreEntries(s)|)
  {
    hide LastSaved, Blob, Run, Apply, StoreEntries;
    RestartLoads(evs, room, digest);
    SavedEntries(evs, digest);
    var s := LastSaved(evs, digest);
    if s.Some? {
      SlotIsLastSaved(evs, digest);
      SavedLoads(s.value, digest);
      LoadsWhole(s.value, room);
    } else {
      ApplyNone(EMPTY);
    }
  }

  // ---------------------------------------------------------------- how many items

  function Size(maps: Maps): nat
    requires |maps| == NAMESPACES
  {
    |maps[0]| + |maps[1]| + |maps[2]| + |maps[3]| + |maps[4]|
  }

  lemma {:induction false} ReplaceSize(items: Items, key: Bytes, value: Bytes)
    ensures |items| <= |Replace(items, key, value)| <= |items| + 1 && Replace(items, key, value) != []
  {
    if items != [] && items[0].key != key {
      ReplaceSize(items[1..], key, value);
    }
  }

  lemma {:induction false} ApplySize(maps: Maps, es: seq<Entry>)
    requires |maps| == NAMESPACES && AllPrintable(es)
    ensures Size(Apply(maps, es)) <= Size(maps) + |es|
    ensures es != [] ==> Size(Apply(maps, es)) > 0
  {
    if es != [] {
      var m, e := Apply(maps, es[..|es| - 1]), es[|es| - 1];
      ApplySize(maps, es[..|es| - 1]);
      ReplaceSize(m[e.ns], e.item.key, e.item.value);
    }
  }

  lemma RecordsSize(maps: Maps)
    requires |maps| == NAMESPACES
    ensures |Records(maps, NAMESPACES - 1)| == |maps[1]| + |maps[2]| + |maps[3]| + |maps[4]|
  {
    NoRecords(maps);
    RecordsStep(maps, 1);
    RecordsStep(maps, 2);
    RecordsStep(maps, 3);
    RecordsStep(maps, 4);
  }

  // ---------------------------------------------------------------- what a load gives back

  // By namespace, and in one namespace no key twice.
  ghost predicate Ordered(es: seq<Entry>) {
    forall i, j :: 0 <= i < j < |es| ==>
      es[i].ns <= es[j].ns && (es[i].ns == es[j].ns ==> es[i].item.key != es[j].item.key)
  }

  // The items of the first `n` maps, as entries.
  function Listed(maps: Maps, n: nat): seq<Entry>
    requires |maps| == NAMESPACES && n <= NAMESPACES
  {
    if n == 0 then [] else Listed(maps, n - 1) + UserEntries(n - 1, maps[n - 1])
  }

  lemma {:induction false} ListedSame(a: Maps, b: Maps, n: nat)
    requires |a| == |b| == NAMESPACES && n <= NAMESPACES && forall k :: 0 <= k < n ==> a[k] == b[k]
    ensures Listed(a, n) == Listed(b, n)
  {
    if n > 0 {
      ListedSame(a, b, n - 1);
    }
  }

  lemma {:induction false} ListedHolds(maps: Maps, n: nat, ns: nat, i: nat)
    requires |maps| == NAMESPACES && ns < n <= NAMESPACES && i < |maps[ns]|
    ensures Entry(ns, maps[ns][i]) in Listed(maps, n)
  {
    if ns + 1 < n {
      ListedHolds(maps, n - 1, ns, i);
    } else {
      assert UserEntries(ns, maps[ns])[i] == Entry(ns, maps[ns][i]);
    }
  }

  lemma ListedAbove(maps: Maps, top: nat, ns: nat)
    requires |maps| == NAMESPACES && top < ns < NAMESPACES
    requires forall e :: e in Listed(maps, NAMESPACES) ==> e.ns <= top
    ensures maps[ns] == []
  {
    if maps[ns] != [] {
      ListedHolds(maps, NAMESPACES, ns, 0);
    }
  }

  lemma {:induction false} ListedAppend(maps: Maps, n: nat, ns: nat, item: Item)
    requires |maps| == NAMESPACES && ns < n <= NAMESPACES && forall k :: ns < k < n ==> maps[k] == []
    ensures Listed(maps[ns := maps[ns] + [item]], n) == Listed(maps, n) + [Entry(ns, item)]
  {
    var now := maps[ns := maps[ns] + [item]];
    if ns + 1 < n {
      ListedAppend(maps, n - 1, ns, item);
    } else {
      ListedSame(maps, now, ns);
      assert UserEntries(ns, now[ns]) == UserEntries(ns, maps[ns]) + [Entry(ns, item)];
    }
  }

  // Nothing but the entries themselves is in the maps they were stored in.
  lemma {:induction false} ListedApply(es: seq<Entry>)
    requires Ordered(es) && AllPrintable(es)
    ensures Listed(Apply(EMPTY, es), NAMESPACES) == es
  {
    EmptyMaps();
    hide Listed, EMPTY;
    if es == [] {
      ListedNone();
    } else {
      var most, e := es[..|es| - 1], es[|es| - 1];
      var m: Maps := Apply(EMPTY, most);
      ListedApply(most);
      forall ns: nat, i: nat | ns < NAMESPACES && i < |m[ns]|
        ensures ns <= e.ns && (ns == e.ns ==> m[ns][i].key != e.item.key)
      {
        ListedHolds(m, NAMESPACES, ns, i);
      }
      forall ns: nat | e.ns < ns < NAMESPACES ensures m[ns] == [] {
        ListedAbove(m, e.ns, ns);
      }
      ReplaceAppends(m[e.ns], e.item.key, e.item.value);
      ListedAppend(m, NAMESPACES, e.ns, e.item);
    }
  }

  lemma {:induction false} ListedNone()
    ensures Listed(EMPTY, NAMESPACES) == [] && Apply(EMPTY, []) == EMPTY
  {
    assert Listed(EMPTY, 2) == [];
    assert Listed(EMPTY, 4) == [];
  }

  lemma {:induction false} ListedRecords(maps: Maps, n: nat)
    requires |maps| == NAMESPACES && n < NAMESPACES
    ensures Listed(maps, n + 1) == UserEntries(0, maps[0]) + Records(maps, n)
  {
    if n > 0 {
      ListedRecords(maps, n - 1);
    } else {
      assert Listed(maps, 0) == [];
    }
  }

  lemma {:induction false} RecordsSame(a: Maps, b: Maps, n: nat)
    requires |a| == |b| == NAMESPACES && n < NAMESPACES && forall k :: 1 <= k <= n ==> a[k] == b[k]
    ensures Records(a, n) == Records(b, n)
  {
    if n > 0 {
      RecordsSame(a, b, n - 1);
    }
  }

  lemma PersistableListed(maps: Maps)
    requires |maps| == NAMESPACES
    ensures Listed(Persistable(maps), NAMESPACES) == StoreEntries(maps)
  {
    hide Listed, FieldEntries, Records, Distinct;
    var es := FieldEntries(maps[0], NUM_FIELDS);
    ListedRecords(Persistable(maps), NAMESPACES - 1);
    RecordsSame(Persistable(maps), maps, NAMESPACES - 1);
    FieldsDistinct(maps[0], NUM_FIELDS);
    assert UserEntries(0, ItemsOf(es)) == es;
  }

  lemma {:induction false} RecordsOrdered(maps: Maps, n: nat)
    requires MapsOk(maps) && n < NAMESPACES
    ensures Ordered(Records(maps, n)) && forall k :: 0 <= k < |Records(maps, n)| ==> 1 <= Records(maps, n)[k].ns <= n
  {
    if n > 0 {
      RecordsOrdered(maps, n - 1);
      assert Distinct(maps[n]);
    }
  }

  lemma StoreOrdered(maps: Maps)
    requires MapsOk(maps)
    ensures Ordered(StoreEntries(maps))
  {
    hide FieldEntries, Records;
    var es := FieldEntries(maps[0], NUM_FIELDS);
    FieldsDistinct(maps[0], NUM_FIELDS);
    RecordsOrdered(maps, NAMESPACES - 1);
    forall i, j | 0 <= i < j < |es| ensures es[i].item.key != es[j].item.key {
      assert ItemsOf(es)[i].key != ItemsOf(es)[j].key;
    }
  }

  // A load gives the persistable part of a store exactly when what was read is what would be written for it.
  lemma LoadsExactly(es: seq<Entry>, maps: Maps)
    requires Ordered(es) && AllPrintable(es) && MapsOk(maps)
    ensures Apply(EMPTY, es) == Persistable(maps) <==> es == StoreEntries(maps)
  {
    hide StoreEntries, Persistable, Apply, Listed;
    ListedApply(es);
    PersistableListed(maps);
    if es == StoreEntries(maps) {
      StoreLoads(maps);
    }
  }

  // A store comes back whole exactly when there is room for all its entries.
  lemma LoadsWhole(maps: Maps, room: nat)
    requires MapsOk(maps) && AllPrintable(StoreEntries(maps))
    ensures Apply(EMPTY, Front(StoreEntries(maps), room)) == Persistable(maps) <==> room >= |StoreEntries(maps)|
  {
    hide StoreEntries, Persistable, Apply;
    StoreOrdered(maps);
    LoadsExactly(Front(StoreEntries(maps), room), maps);
  }

  // ---------------------------------------------------------------- when success lasts

  // What a restart loads of the last saved store.
  ghost function Loaded(saved: Option<Maps>, room: nat): seq<Entry>
    requires saved.Some? ==> |saved.value| == NAMESPACES
  {
    Front(if saved.None? then [] else StoreEntries(saved.value), room)
  }

  // A commit reported successful is what a restart sees exactly when a handler was there to write it and there is
  // room for all of it, or, without one, when what is loaded of the last saved store is what would have been written.
  lemma CommitSticks(evs: seq<Event>, ns: nat, hostOk: bool, room: nat, digest: Bytes -> Digest)
    requires Step(Run(evs, digest), Commit(ns, hostOk), digest).1
    ensures var d, s := Run(evs, digest), LastSaved(evs, digest);
            && (s.Some? ==> |s.value| == NAMESPACES)
            && (Run(evs + [Commit(ns, hostOk), Restart(room)], digest).maps == Persistable(d.maps) <==>
                if d.handler then room >= |StoreEntries(d.maps)| else Loaded(s, room) == StoreEntries(d.maps))
  {
    hide Boot, Persistable, Blob, Writable, StoreEntries, LastSaved;
    var d, c := Run(evs, digest), evs + [Commit(ns, hostOk)];
    assert c[..|evs|] == evs;
    assert evs + [Commit(ns, hostOk), Restart(room)] == c + [Restart(room)];
    RestartSees(c, room, digest);
    RunOk(evs, digest);
    SlotIsLastSaved(evs, digest);
    CommitSaves(evs, ns, hostOk, digest);
    if !d.handler {
      var s := LastSaved(evs, digest);
      if s.Some? {
        StoreOrdered(s.value);
      } else {
        ApplyNone(EMPTY);
      }
      LoadsExactly(Loaded(s, room), d.maps);
    }
  }

  lemma CommitSaves(evs: seq<Event>, ns: nat, hostOk: bool, digest: Bytes -> Digest)
    requires Step(Run(evs, digest), Commit(ns, hostOk), digest).1
    ensures var d := Run(evs, digest);
            LastSaved(evs + [Commit(ns, hostOk)], digest) == if d.handler then Some(d.maps) else LastSaved(evs, digest)
  {
    hide Blob, Writable;
    assert (evs + [Commit(ns, hostOk)])[..|evs|] == evs;
  }

  // A factory reset reported successful is still in force after a restart exactly when a handler was there to have
  // the copies removed, or there was nothing to bring back.
  lemma ResetSticks(evs: seq<Event>, hostOk: bool, room: nat, digest: Bytes -> Digest)
    requires Step(Run(evs, digest), Reset(hostOk), digest).1
    ensures var d, s := Run(evs, digest), LastSaved(evs, digest);
            && (s.Some? ==> |s.value| == NAMESPACES)
            && (Run(evs + [Reset(hostOk), Restart(room)], digest).maps == EMPTY <==>
                d.handler || s.None? || StoreEntries(s.value) == [] || room == 0)
  {
    hide Boot, Blob, Writable, StoreEntries, LastSaved;
    var d, c := Run(evs, digest), evs + [Reset(hostOk)];
    assert c[..|evs|] == evs;
    assert evs + [Reset(hostOk), Restart(room)] == c + [Restart(room)];
    RestartLoads(c, room, digest);
    SavedEntries(evs, digest);
    BootsEmpty(Run(c, digest).slot, digest, room);
  }

  lemma BootsEmpty(slot: Option<Bytes>, digest: Bytes -> Digest, room: nat)
    ensures Boot(slot, digest, room) == EMPTY <==> Entries(slot, digest) == [] || room == 0
    ensures slot.None? ==> Entries(slot, digest) == []
  {
    NoEntries(slot, digest);
    hide Entries, Apply;
    var es := Front(Entries(slot, digest), room);
    ApplySize(EMPTY, es);
    if es == [] {
      ApplyNone(EMPTY);
    }
  }

  lemma NoEntries(slot: Option<Bytes>, digest: Bytes -> Digest)
    ensures slot.None? ==> Entries(slot, digest) == []
  {
  }

  // ---------------------------------------------------------------- runs that lose

  // A store holding one field.
  const ONE_FIELD: Maps := [[Item(FieldKey(0), [1])], [], [], [], []]
  const WRITE_IT := Write(0, FieldKey(0), [1], true)

  lemma FieldEntriesStep(prefs: Items, n: nat)
    requires n <= NUM_FIELDS
    ensures FieldEntries(prefs, n) == if n == 0 then [] else FieldEntries(prefs, n - 1) + FieldEntry(prefs, n - 1)
  {
  }

  lemma OneFieldEntry(i: nat)
    requires i < NUM_FIELDS
    ensures FieldEntry(ONE_FIELD[0], i) == if i == 0 then [Entry(0, ONE_FIELD[0][0])] else []
  {
    hide FieldKey;
    SameField(i, 0);
  }

  lemma {:induction false} OneFieldEntries(n: nat)
    requires n <= NUM_FIELDS
    ensures FieldEntries(ONE_FIELD[0], n) == if n == 0 then [] else [Entry(0, ONE_FIELD[0][0])]
  {
    hide FieldKey, FieldEntries, FieldEntry;
    FieldEntriesStep(ONE_FIELD[0], n);
    if n > 0 {
      OneFieldEntries(n - 1);
      OneFieldEntry(n - 1);
    }
  }

  lemma OneFieldOk()
    ensures EntryOk(Entry(0, ONE_FIELD[0][0]))
  {
    hide FieldKey;
    var f := FieldOf(FieldKey(0));
    assert FieldKey(0) == FieldKey(0) && f.Some?;
    SameField(f.value, 0);
  }

  lemma OneFieldStore()
    ensures StoreEntries(ONE_FIELD) == [Entry(0, ONE_FIELD[0][0])] && Writable(ONE_FIELD)
    ensures MapsOk(ONE_FIELD) && Persistable(ONE_FIELD) == ONE_FIELD
  {
    hide FieldKey, EntryOk, FieldEntries, Records;
    OneFieldEntries(NUM_FIELDS);
    RecordsSize(ONE_FIELD);
    var es := StoreEntries(ONE_FIELD);
    assert es == [Entry(0, ONE_FIELD[0][0])];
    SameField(0, URL_A);
    SameField(0, URL_B);
    OneFieldOk();
    assert ItemsOf(FieldEntries(ONE_FIELD[0], NUM_FIELDS)) == ONE_FIELD[0];
  }

  lemma RunNext(evs: seq<Event>, ev: Event, digest: Bytes -> Digest)
    ensures Run(evs + [ev], digest) == Step(Run(evs, digest), ev, digest).0
  {
    hide Step;
    assert (evs + [ev])[..|evs|] == evs;
  }

  lemma OneFieldWritten(handler: bool, digest: Bytes -> Digest)
    ensures Step(Device(EMPTY, handler, None), WRITE_IT, digest).0 == Device(ONE_FIELD, handler, None)
  {
    hide FieldKey;
  }

  lemma NewRun(digest: Bytes -> Digest)
    ensures Run([], digest) == NEW_DEVICE
  {
  }

  // Without a handler a commit can report success and be gone after a restart.
  lemma CommitLost(digest: Bytes -> Digest, room: nat)
    ensures var evs := [WRITE_IT];
            && Step(Run(evs, digest), Commit(0, true), digest).1
            && Run(evs, digest).maps == Persistable(ONE_FIELD) == ONE_FIELD
            && Run(evs + [Commit(0, true), Restart(room)], digest).maps == EMPTY != ONE_FIELD
  {
    OneFieldStore();
    NewRun(digest);
    OneFieldWritten(false, digest);
    hide Run, Boot, Writable, Blob, Persistable, StoreEntries, MapsOk, FieldKey;
    RunNext([], WRITE_IT, digest);
    RunNext([WRITE_IT], Commit(0, true), digest);
    RunNext([WRITE_IT, Commit(0, true)], Restart(room), digest);
    assert [] + [WRITE_IT] == [WRITE_IT] && [WRITE_IT] + [Commit(0, true)] == [WRITE_IT, Commit(0, true)];
    assert [WRITE_IT] + [Commit(0, true), Restart(room)] == [WRITE_IT, Commit(0, true)] + [Restart(room)];
    NoEntries(None, digest);
    BootsEmpty(None, digest, room);
  }

  lemma StepsAre(d: Device, on: bool, digest: Bytes -> Digest)
    requires |d.maps| == NAMESPACES
    ensures Step(d, SetHandler(on), digest) == (d.(handler := on), true)
    ensures !d.handler ==> Step(d, Reset(true), digest) == (d.(maps := EMPTY), true)
    ensures d.handler && Writable(d.maps) ==>
              Step(d, Commit(0, true), digest) == (d.(slot := Some(Blob(d.maps, digest))), true)
  {
    hide Blob, Writable, Boot;
    if Writable(d.maps) {
      BlobNotEmpty(d.maps, digest);
    }
  }

  // A store written and saved, after which the handler goes.
  function SavedOnce(write: Event): seq<Event> {
    [SetHandler(true), write, Commit(0, true), SetHandler(false)]
  }

  lemma SavedOnceRun(write: Event, maps: Maps, digest: Bytes -> Digest)
    requires |maps| == NAMESPACES && Writable(maps)
    requires Step(Device(EMPTY, true, None), write, digest).0 == Device(maps, true, None)
    ensures Run(SavedOnce(write), digest) == Device(maps, false, Some(Blob(maps, digest)))
  {
    hide Run, Step, Writable, Blob, EMPTY;
    var on, off, commit := SetHandler(true), SetHandler(false), Commit(0, true);
    NewRun(digest);
    EmptyMaps();
    StepsAre(NEW_DEVICE, true, digest);
    StepsAre(Device(maps, true, None), true, digest);
    StepsAre(Device(maps, true, Some(Blob(maps, digest))), false, digest);
    RunNext([], on, digest);
    assert [] + [on] == [on];
    RunNext([on], write, digest);
    assert [on] + [write] == [on, write];
    RunNext([on, write], commit, digest);
    assert [on, write] + [commit] == [on, write, commit];
    RunNext([on, write, commit], off, digest);
    assert [on, write, commit] + [off] == SavedOnce(write);
  }

  lemma BootsWhole(maps: Maps, digest: Bytes -> Digest)
    requires MapsOk(maps) && Writable(maps)
    ensures AllPrintable(StoreEntries(maps))
    ensures Boot(Some(Blob(maps, digest)), digest, |StoreEntries(maps)|) == Persistable(maps)
  {
    SavedLoads(maps, digest);
    hide Apply, Loadable, Blob, StoreEntries, Parse, Writable, Persistable;
    assert Front(StoreEntries(maps), |StoreEntries(maps)|) == StoreEntries(maps);
  }

  lemma ResetAfterSave(write: Event, maps: Maps, digest: Bytes -> Digest)
    requires MapsOk(maps) && Writable(maps)
    requires Step(Device(EMPTY, true, None), write, digest).0 == Device(maps, true, None)
    ensures var evs := SavedOnce(write);
            && Step(Run(evs, digest), Reset(true), digest).1
            && Run(evs + [Reset(true)], digest).maps == EMPTY
            && Run(evs + [Reset(true), Restart(|StoreEntries(maps)|)], digest).maps == Persistable(maps)
  {
    hide Run, Step, Writable, Blob, EMPTY, Boot, StoreEntries, Persistable, SavedOnce;
    var evs, room := SavedOnce(write), |StoreEntries(maps)|;
    SavedOnceRun(write, maps, digest);
    BootsWhole(maps, digest);
    StepsAre(Run(evs, digest), true, digest);
    RunNext(evs, Reset(true), digest);
    RestartLoads(evs + [Reset(true)], room, digest);
    assert evs + [Reset(true), Restart(room)] == evs + [Reset(true)] + [Restart(room)];
  }

  // A reset without a handler can report success, and yet the whole store comes back.
  lemma ResetUndone(digest: Bytes -> Digest)
    ensures var evs := SavedOnce(WRITE_IT);
            && Step(Run(evs, digest), Reset(true), digest).1
            && Run(evs + [Reset(true)], digest).maps == EMPTY
            && Run(evs + [Reset(true), Restart(1)], digest).maps == ONE_FIELD != EMPTY
  {
    hide Run, Step, Writable, StoreEntries, Persistable, SavedOnce, MapsOk, FieldKey;
    OneFieldStore();
    OneFieldWritten(true, digest);
    ResetAfterSave(WRITE_IT, ONE_FIELD, digest);
  }
}
