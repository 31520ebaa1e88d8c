// pijade_settings_serialize() and pijade_settings_deserialize(): a sizing pass and a writing pass that must
// agree, and a blob that loads back as what was saved.
module SettingsSave {
  import opened Bits
  import opened Options
  import opened SettingsFields
  import opened SettingsStore
  import opened SettingsFormat
  import opened SettingsBlob

  // ---------------------------------------------------------------- sizes

  ghost predicate Prefix(a: seq<Entry>, all: seq<Entry>) {
    |a| <= |all| && a == all[..|a|]
  }

  lemma PrefixFits(a: seq<Entry>, all: seq<Entry>)
    requires AllPrintable(all) && Prefix(a, all)
    ensures AllPrintable(a) && |Print(a)| <= |Print(all)|
  {
    hide Print, Printable;
    assert a + all[|a|..] == all;
    PrintConcat(a, all[|a|..]);
  }

  lemma {:induction false} FieldsPrefix(prefs: Items, i: nat, n: nat)
    requires i <= n <= NUM_FIELDS
    ensures Prefix(FieldEntries(prefs, i), FieldEntries(prefs, n))
  {
    hide FieldEntry;
    if i < n {
      FieldsPrefix(prefs, i, n - 1);
    }
  }

  lemma {:induction false} RecordsPrefix(maps: Maps, i: nat, n: nat)
    requires |maps| == NAMESPACES && i <= n < NAMESPACES
    ensures Prefix(Records(maps, i), Records(maps, n))
  {
    if i < n {
      RecordsPrefix(maps, i, n - 1);
    }
  }

  // Everything up to item k of namespace ns.
  ghost function UpTo(maps: Maps, ns: nat, k: nat): seq<Entry>
    requires |maps| == NAMESPACES && 1 <= ns < NAMESPACES && k <= |maps[ns]|
  {
    FieldEntries(maps[0], NUM_FIELDS) + (Records(maps, ns - 1) + UserEntries(ns, maps[ns][..k]))
  }

  lemma UpToPrefix(maps: Maps, ns: nat, k: nat)
    requires |maps| == NAMESPACES && 1 <= ns < NAMESPACES && k <= |maps[ns]|
    ensures Prefix(UpTo(maps, ns, k), StoreEntries(maps))
  {
    hide FieldEntries;
    assert UserEntries(ns, maps[ns])[..k] == UserEntries(ns, maps[ns][..k]);
    assert Prefix(Records(maps, ns - 1) + UserEntries(ns, maps[ns][..k]), Records(maps, ns));
    hide Records;
    RecordsPrefix(maps, ns, NAMESPACES - 1);
  }

  lemma UpToNext(maps: Maps, ns: nat, k: nat)
    requires |maps| == NAMESPACES && 1 <= ns < NAMESPACES && k < |maps[ns]|
    ensures UpTo(maps, ns, k + 1) == UpTo(maps, ns, k) + [Entry(ns, maps[ns][k])]
  {
    hide FieldEntries, Records;
    assert maps[ns][..k + 1][..k] == maps[ns][..k];
  }

  lemma UpToWhole(maps: Maps, ns: nat)
    requires |maps| == NAMESPACES && 1 <= ns < NAMESPACES
    ensures ns + 1 < NAMESPACES ==> UpTo(maps, ns, |maps[ns]|) == UpTo(maps, ns + 1, 0)
    ensures ns + 1 == NAMESPACES ==> UpTo(maps, ns, |maps[ns]|) == StoreEntries(maps)
    ensures UpTo(maps, 1, 0) == FieldEntries(maps[0], NUM_FIELDS)
  {
    hide FieldEntries;
    assert maps[ns][..|maps[ns]|] == maps[ns];
  }

  ghost predicate UserOk(maps: Maps, ns: nat, k: nat)
    requires |maps| == NAMESPACES && 1 <= ns < NAMESPACES && k < |maps[ns]|
  {
    UserEntryOk(ns, maps[ns][k].key, |maps[ns][k].value|)
  }

  lemma UserNeeded(maps: Maps, ns: nat, k: nat)
    requires |maps| == NAMESPACES && 1 <= ns < NAMESPACES && k < |maps[ns]| && !UserOk(maps, ns, k)
    ensures !Writable(maps)
  {
    hide FieldEntries, Records, EntryOk, UserEntryOk;
    UpToNext(maps, ns, k);
    UpToPrefix(maps, ns, k + 1);
    var all, e := StoreEntries(maps), Entry(ns, maps[ns][k]);
    assert all[|UpTo(maps, ns, k)|] == e;
    UserEntry(e);
  }

  lemma UserPrintable(maps: Maps, ns: nat, k: nat)
    requires |maps| == NAMESPACES && 1 <= ns < NAMESPACES && k < |maps[ns]| && UserOk(maps, ns, k)
    ensures Printable(Entry(ns, maps[ns][k]))
  {
    UserEntry(Entry(ns, maps[ns][k]));
    OkPrintable(Entry(ns, maps[ns][k]));
  }

  // ---------------------------------------------------------------- the sizing pass

  method SizeFields(prefs: Items) returns (len: nat)
    ensures len == |Print(FieldEntries(prefs, NUM_FIELDS))|
  {
    hide Print, FieldEntry, FieldEntries;
    len := 0;
    NoFields(prefs);
    for i := 0 to NUM_FIELDS
      invariant len == |Print(FieldEntries(prefs, i))|
    {
      FieldStep(prefs, i);
      FieldsPlain(i);
      var item := Lookup(prefs, FieldKey(i));
      if item.Some? && InRange(i, |item.value|) {
        len := len + 1 + 1 + |FieldKey(i)| + 2 + |item.value|;
      }
    }
  }

  lemma NoFields(prefs: Items)
    ensures Print(FieldEntries(prefs, 0)) == []
  {
  }

  lemma FieldStep(prefs: Items, i: nat)
    requires i < NUM_FIELDS
    ensures var v := Lookup(prefs, FieldKey(i));
            if v.Some? && InRange(i, |v.value|)
            then var e := Entry(0, Item(FieldKey(i), v.value));
                 && Printable(e) && FieldEntries(prefs, i + 1) == FieldEntries(prefs, i) + [e]
                 && Print(FieldEntries(prefs, i + 1)) == Print(FieldEntries(prefs, i)) + EntryBytes(e)
            else FieldEntries(prefs, i + 1) == FieldEntries(prefs, i)
  {
    hide Print, EntryBytes;
    FieldsPlain(i);
    var v := Lookup(prefs, FieldKey(i));
    if v.Some? && InRange(i, |v.value|) {
      PrintSnoc(FieldEntries(prefs, i), Entry(0, Item(FieldKey(i), v.value)));
    }
  }

  method SizeStore(maps: Maps) returns (ok: bool, len: nat)
    requires |maps| == NAMESPACES
    ensures !ok ==> !Writable(maps)
    ensures ok ==> AllPrintable(StoreEntries(maps)) && len == |Print(StoreEntries(maps))|
  {
    hide Print, FieldEntries, UserOk, UpTo, EntryBytes, StoreEntries;
    ok := true;
    len := SizeFields(maps[0]);
    UpToWhole(maps, 1);
    var ns: nat := 1;
    while ns < NAMESPACES
      invariant 1 <= ns <= NAMESPACES
      invariant ns < NAMESPACES ==> AllPrintable(UpTo(maps, ns, 0)) && len == |Print(UpTo(maps, ns, 0))|
      invariant ns == NAMESPACES ==> AllPrintable(StoreEntries(maps)) && len == |Print(StoreEntries(maps))|
    {
      for i := 0 to |maps[ns]|
        invariant AllPrintable(UpTo(maps, ns, i)) && len == |Print(UpTo(maps, ns, i))|
      {
        var item := maps[ns][i];
        ok := UserEntryValid(ns, item.key, |item.value|);
        UserOkIs(maps, ns, i);
        if !ok {
          UserNeeded(maps, ns, i);
          return;
        }
        UserPrintable(maps, ns, i);
        UpToNext(maps, ns, i);
        PrintSnoc(UpTo(maps, ns, i), Entry(ns, item));
        len := len + 1 + 1 + |item.key| + 2 + |item.value|;
      }
      UpToWhole(maps, ns);
      ns := ns + 1;
    }
  }

  lemma UserOkIs(maps: Maps, ns: nat, k: nat)
    requires |maps| == NAMESPACES && 1 <= ns < NAMESPACES && k < |maps[ns]|
    ensures UserOk(maps, ns, k) == UserEntryOk(ns, maps[ns][k].key, |maps[ns][k].value|)
  {
  }

  // ---------------------------------------------------------------- the writing pass

  // One entry at the cursor.
  method PutEntry(out: array<Byte>, p0: nat, e: Entry) returns (p: nat)
    requires Printable(e) && p0 + |EntryBytes(e)| <= out.Length
    modifies out
    ensures p == p0 + |EntryBytes(e)| && out[..p] == old(out[..p0]) + EntryBytes(e)
  {
    var k, n := |e.item.key|, |e.item.value|;
    ghost var was := out[..p0];
    p := p0;
    out[p] := e.ns;
    out[p + 1] := k;
    forall i | 0 <= i < k {
      out[p + 2 + i] := e.item.key[i];
    }
    out[p + 2 + k] := n % 256;
    out[p + 3 + k] := n / 256;
    forall i | 0 <= i < n {
      out[p + 4 + k + i] := e.item.value[i];
    }
    p := p + 4 + k + n;
    assert out[..p0] == was;
    assert out[p0..p] == EntryBytes(e);
  }

  // The body so far sits behind the header.
  ghost predicate Written(out: seq<Byte>, p: nat, es: seq<Entry>) {
    AllPrintable(es) && p <= |out| && p == HEADER_LEN + |Print(es)| && out[HEADER_LEN..p] == Print(es)
  }

  lemma WrittenNext(was: seq<Byte>, out: seq<Byte>, p: nat, es: seq<Entry>, e: Entry, p': nat)
    requires Written(was, p, es) && Printable(e) && p' == p + |EntryBytes(e)| <= |out|
    requires out[..p'] == was[..p] + EntryBytes(e)
    ensures Written(out, p', es + [e])
  {
    hide Print, EntryBytes;
    PrintSnoc(es, e);
    assert out[HEADER_LEN..p'] == out[..p'][HEADER_LEN..];
    assert was[HEADER_LEN..p] == was[..p][HEADER_LEN..];
  }

  method Append(out: array<Byte>, p0: nat, e: Entry, ghost es: seq<Entry>, ghost all: seq<Entry>) returns (p: nat)
    requires Written(out[..], p0, es) && Printable(e) && AllPrintable(all) && Prefix(es + [e], all)
    requires out.Length == HEADER_LEN + |Print(all)|
    modifies out
    ensures Written(out[..], p, es + [e])
  {
    hide Print, EntryBytes, Printable;
    PrintSnoc(es, e);
    PrefixFits(es + [e], all);
    ghost var was := out[..];
    p := PutEntry(out, p0, e);
    assert was[..p0] == old(out[..p0]);
    assert out[..][..p] == out[..p];
    WrittenNext(was, out[..], p0, es, e, p);
  }

  method WriteFields(prefs: Items, out: array<Byte>, ghost all: seq<Entry>) returns (p: nat)
    requires AllPrintable(all) && Prefix(FieldEntries(prefs, NUM_FIELDS), all)
    requires out.Length == HEADER_LEN + |Print(all)|
    modifies out
    ensures Written(out[..], p, FieldEntries(prefs, NUM_FIELDS))
  {
    NoFields(prefs);
    hide Print, FieldEntry, FieldEntries, Prefix;
    p := HEADER_LEN;
    assert Written(out[..], p, FieldEntries(prefs, 0)) by {
      NoFieldsWritten(prefs, out[..]);
    }
    for i := 0 to NUM_FIELDS
      invariant Written(out[..], p, FieldEntries(prefs, i))
    {
      FieldStep(prefs, i);
      FieldsPlain(i);
      var item := Lookup(prefs, FieldKey(i));
      if item.None? || !InRange(i, |item.value|) {
        continue;
      }
      FieldsPrefix(prefs, i + 1, NUM_FIELDS);
      PrefixTrans(FieldEntries(prefs, i + 1), FieldEntries(prefs, NUM_FIELDS), all);
      p := Append(out, p, Entry(0, Item(FieldKey(i), item.value)), FieldEntries(prefs, i), all);
    }
  }

  lemma NoFieldsWritten(prefs: Items, out: seq<Byte>)
    requires |out| >= HEADER_LEN
    ensures Written(out, HEADER_LEN, FieldEntries(prefs, 0))
  {
  }

  lemma PrefixTrans(a: seq<Entry>, b: seq<Entry>, c: seq<Entry>)
    requires Prefix(a, b) && Prefix(b, c)
    ensures Prefix(a, c)
  {
  }

  method WriteRecords(maps: Maps, out: array<Byte>, p0: nat) returns (p: nat)
    requires |maps| == NAMESPACES && AllPrintable(StoreEntries(maps))
    requires out.Length == HEADER_LEN + |Print(StoreEntries(maps))|
    requires Written(out[..], p0, FieldEntries(maps[0], NUM_FIELDS))
    modifies out
    ensures Written(out[..], p, StoreEntries(maps))
  {
    hide Print, FieldEntries, UpTo, EntryBytes, StoreEntries, Written, Prefix;
    p := p0;
    UpToWhole(maps, 1);
    var ns: nat := 1;
    while ns < NAMESPACES
      invariant 1 <= ns <= NAMESPACES
      invariant ns < NAMESPACES ==> Written(out[..], p, UpTo(maps, ns, 0))
      invariant ns == NAMESPACES ==> Written(out[..], p, StoreEntries(maps))
    {
      for i := 0 to |maps[ns]|
        invariant Written(out[..], p, UpTo(maps, ns, i))
      {
        UpToNext(maps, ns, i);
        UpToPrefix(maps, ns, i + 1);
        LastPrintable(UpTo(maps, ns, i), Entry(ns, maps[ns][i]), StoreEntries(maps));
        p := Append(out, p, Entry(ns, maps[ns][i]), UpTo(maps, ns, i), StoreEntries(maps));
      }
      UpToWhole(maps, ns);
      ns := ns + 1;
    }
  }

  lemma LastPrintable(a: seq<Entry>, e: Entry, all: seq<Entry>)
    requires AllPrintable(all) && Prefix(a + [e], all)
    ensures Printable(e)
  {
    hide Printable;
    assert (a + [e])[|a|] == e && all[|a|] == e;
  }

  // Magic and digest in front of the body.
  method SetHeader(out: array<Byte>, d: Digest)
    requires out.Length >= HEADER_LEN
    modifies out
    ensures out[..] == MAGIC + d + old(out[HEADER_LEN..])
  {
    MagicLength();
    hide MAGIC;
    forall i | 0 <= i < 8 {
      out[i] := MAGIC[i];
    }
    forall i | 0 <= i < 4 {
      out[8 + i] := d[i];
    }
  }

  // The whole of pijade_settings_serialize(): a blob exactly when the store keeps the loader's rules.
  method Serialize(nvs: Nvs, digest: Bytes -> Digest) returns (r: Option<Bytes>)
    requires nvs.Valid()
    ensures r == if Writable(nvs.maps) then Some(Blob(nvs.maps, digest)) else None
  {
    ghost var es := StoreEntries(nvs.maps);
    hide Print, StoreEntries, Parse, Accepts, MAGIC, MapsOk, Printable, RulesOk;
    var sized, len := SizeStore(nvs.maps);
    if !sized {
      return None;
    }
    var out := new Byte[HEADER_LEN + len](_ => 0);
    FieldsFirst(nvs.maps);
    var p := WriteFields(nvs.maps[0], out, es);
    p := WriteRecords(nvs.maps, out, p);
    assert p == out.Length && out[HEADER_LEN..] == Print(es);
    var body := out[HEADER_LEN..];
    var d := digest(body);
    SetHeader(out, d);
    ParsePrint(es);
    var walked := WalkEntries(null, body);
    if !walked {
      return None;
    }
    return Some(out[..]);
  }

  lemma MagicLength()
    ensures |MAGIC| == 8
  {
  }

  lemma FieldsFirst(maps: Maps)
    requires |maps| == NAMESPACES
    ensures Prefix(FieldEntries(maps[0], NUM_FIELDS), StoreEntries(maps))
  {
  }

  // ---------------------------------------------------------------- loading

  ghost predicate Loadable(blob: Bytes, digest: Bytes -> Digest) {
    && |blob| >= HEADER_LEN && blob[..8] == MAGIC && blob[8..12] == digest(blob[HEADER_LEN..])
    && BodyOk(blob[HEADER_LEN..])
  }

  // A blob refused for framing, digest or content changes nothing, and asks the map library for nothing; a good one
  // is stored entry by entry, and fails exactly when the map library does not carry out one of them.
  method Deserialize(nvs: Nvs, blob: Bytes, digest: Bytes -> Digest) returns (ok: bool)
    requires nvs.Valid()
    modifies nvs
    ensures nvs.Valid()
    ensures !Loadable(blob, digest) ==> !ok && nvs.maps == old(nvs.maps) && nvs.calls == old(nvs.calls)
    ensures Loadable(blob, digest) ==>
              StoredBy(nvs.serves, old(nvs.maps), old(nvs.calls), Parse(blob[HEADER_LEN..]).value,
                       nvs.maps, nvs.calls, ok)
  {
    hide Parse, Apply, BodyOk, RulesOk, MapsOk, MAGIC, StoredBy;
    if |blob| < HEADER_LEN || blob[..8] != MAGIC {
      return false;
    }
    var body := blob[HEADER_LEN..];
    var d := digest(body);
    if blob[8..12] != d {
      return false;
    }
    ok := WalkEntries(null, body);
    if ok {
      RulesNeeded(body);
      RulesParse(body);
      ok := WalkEntries(nvs, body);
    }
  }

  lemma RulesParse(body: Bytes)
    requires RulesOk(body)
    ensures Parse(body).Some?
  {
  }
}
