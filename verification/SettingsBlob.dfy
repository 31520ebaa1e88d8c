// Writing and loading the settings blob (libjade/pijade_settings.c) over the five namespace maps.
module SettingsBlob {
  import opened Options
  import opened SettingsFields
  import opened SettingsStore
  import opened SettingsFormat

  type Digest = d: Bytes | |d| == 4 witness [0, 0, 0, 0]

  // "PIJADES4"
  const MAGIC: Bytes := [80, 73, 74, 65, 68, 69, 83, 52]
  const HEADER_LEN := 12

  // ---------------------------------------------------------------- what gets written

  // Field i, if it is set and within its width.
  function FieldEntry(prefs: Items, i: nat): (r: seq<Entry>)
    requires i < NUM_FIELDS
    ensures AllPrintable(r)
  {
    FieldsPlain(i);
    var v := Lookup(prefs, FieldKey(i));
    if v.Some? && InRange(i, |v.value|) then [Entry(0, Item(FieldKey(i), v.value))] else []
  }

  function FieldEntries(prefs: Items, n: nat): (r: seq<Entry>)
    requires n <= NUM_FIELDS
    ensures AllPrintable(r)
  {
    if n == 0 then [] else FieldEntries(prefs, n - 1) + FieldEntry(prefs, n - 1)
  }

  function UserEntries(ns: nat, items: Items): (r: seq<Entry>)
    ensures |r| == |items| && forall k :: 0 <= k < |r| ==> r[k] == Entry(ns, items[k])
  {
    seq(|items|, k requires 0 <= k < |items| => Entry(ns, items[k]))
  }

  // The entries of namespaces 1 to n.
  function Records(maps: Maps, n: nat): seq<Entry>
    requires |maps| == NAMESPACES && n < NAMESPACES
  {
    if n == 0 then [] else Records(maps, n - 1) + UserEntries(n, maps[n])
  }

  function StoreEntries(maps: Maps): seq<Entry>
    requires |maps| == NAMESPACES
  {
    FieldEntries(maps[0], NUM_FIELDS) + Records(maps, NAMESPACES - 1)
  }

  ghost predicate Writable(maps: Maps)
    requires |maps| == NAMESPACES
  {
    Accepts(StoreEntries(maps))
  }

  lemma AcceptsPrintable(es: seq<Entry>)
    requires AllOk(es)
    ensures AllPrintable(es)
  {
    hide EntryOk, Printable;
    forall i | 0 <= i < |es| ensures Printable(es[i]) {
      OkPrintable(es[i]);
    }
  }

  // magic, digest of the body, body
  ghost function Blob(maps: Maps, digest: Bytes -> Digest): Bytes
    requires |maps| == NAMESPACES && Writable(maps)
  {
    AcceptsPrintable(StoreEntries(maps));
    var body := Print(StoreEntries(maps));
    MAGIC + digest(body) + body
  }

  // Storing entries one after the other.
  function Apply(maps: Maps, entries: seq<Entry>): (r: Maps)
    requires |maps| == NAMESPACES && AllPrintable(entries)
    ensures |r| == NAMESPACES
  {
    if entries == [] then maps
    else
      var m, e := Apply(maps, entries[..|entries| - 1]), entries[|entries| - 1];
      m[e.ns := Replace(m[e.ns], e.item.key, e.item.value)]
  }

  // ---------------------------------------------------------------- the maps

  // How many requests in a row the map library carries out, of `n` from number `at` on.
  function Served(serves: nat -> bool, at: nat, n: nat): (k: nat)
    ensures k <= n
    decreases n
  {
    if n == 0 || !serves(at) then 0 else 1 + Served(serves, at + 1, n - 1)
  }

  lemma {:induction false} ServedIs(serves: nat -> bool, at: nat, n: nat, k: nat)
    requires k <= n && (k < n ==> !serves(at + k)) && forall j :: at <= j < at + k ==> serves(j)
    ensures Served(serves, at, n) == k
    decreases n
  {
    if k > 0 {
      ServedIs(serves, at + 1, n - 1, k - 1);
    }
  }

  // `serves` says which requests wally_map_replace() and wally_map_remove() carry out, counted from the start;
  // one they do not carry out, for want of memory, changes nothing.
  class Nvs {
    var maps: Maps
    var calls: nat
    const serves: nat -> bool

    ghost predicate Valid()
      reads this
    {
      MapsOk(maps)
    }

    constructor (serves: nat -> bool)
      ensures Valid() && maps == EMPTY && calls == 0 && this.serves == serves
    {
      this.serves := serves;
      maps := EMPTY;
      calls := 0;
    }

    method MapReplace(ns: nat, key: Bytes, value: Bytes) returns (ok: bool)
      requires Valid() && ns < NAMESPACES
      modifies this
      ensures Valid() && ok == serves(old(calls)) && calls == old(calls) + 1
      ensures maps == if ok then old(maps)[ns := Replace(old(maps)[ns], key, value)] else old(maps)
    {
      ok := serves(calls);
      calls := calls + 1;
      if ok {
        ReplaceDistinct(maps[ns], key, value);
        maps := maps[ns := Replace(maps[ns], key, value)];
      }
    }

    method MapRemove(ns: nat, key: Bytes) returns (ok: bool)
      requires Valid() && ns < NAMESPACES
      modifies this
      ensures Valid() && ok == serves(old(calls)) && calls == old(calls) + 1
      ensures maps == if ok then old(maps)[ns := Remove(old(maps)[ns], key)] else old(maps)
    {
      ok := serves(calls);
      calls := calls + 1;
      if ok {
        RemoveDistinct(maps[ns], key);
        maps := maps[ns := Remove(maps[ns], key)];
      }
    }
  }

  // Storing `es` from the state (was, at): every entry up to the first the library does not carry out, all of them
  // exactly when it carries out all.
  ghost predicate StoredBy(serves: nat -> bool, was: Maps, at: nat, es: seq<Entry>, now: Maps, calls: nat, ok: bool)
    requires |was| == NAMESPACES && AllPrintable(es)
  {
    var k := Served(serves, at, |es|);
    && ok == (k == |es|)
    && now == Apply(was, es[..k])
    && calls == at + k + (if ok then 0 else 1)
  }

  // ---------------------------------------------------------------- walking a body

  // One entry's framing, byte by byte; nothing is read past the end.
  method ReadFrame(body: Bytes, p0: nat) returns (r: Option<(Entry, nat)>)
    requires p0 < |body|
    ensures r == ReadEntry(body[p0..])
  {
    ghost var rest := body[p0..];
    var p := p0;
    var ns := body[p];
    p := p + 1;
    if ns >= NAMESPACES || p == |body| {
      return None;
    }
    var keyLen := body[p] as nat;
    p := p + 1;
    if keyLen == 0 || |body| - p < keyLen + 2 {
      return None;
    }
    var key := body[p..p + keyLen];
    p := p + keyLen;
    var valueLen := body[p] as nat + 256 * body[p + 1] as nat;
    p := p + 2;
    if |body| - p < valueLen {
      return None;
    }
    var value := body[p..p + valueLen];
    assert key == rest[2..2 + keyLen] && value == rest[4 + keyLen..4 + keyLen + valueLen];
    return Some((Entry(ns, Item(key, value)), 4 + keyLen + valueLen));
  }

  // The checks on a default-namespace entry.
  method CheckField(item: Item) returns (ok: bool, field: nat)
    ensures ok == EntryOk(Entry(0, item))
    ensures ok ==> field < NUM_FIELDS && FieldKey(field) == item.key
  {
    ok, field := false, 0;
    var found := FindField(item.key);
    if found.None? || !InRange(found.value, |item.value|) {
      return;
    }
    field := found.value;
    FieldsPlain(field);
    if FIELDS[field].nulTerminated && item.value[|item.value| - 1] != 0 {
      return;
    }
    if field == ANTIREPLAY && Le32(item.value) == 0xffffffff {
      return;
    }
    if field == NETWORK_TYPE && Le32(item.value) > 2 {
      return;
    }
    ok := true;
  }

  // How far a walk has come: the entries behind it, all of them within the rules.
  ghost predicate Walked(body: Bytes, p: nat, done: seq<Entry>) {
    p <= |body| && AllPrintable(done) && body[..p] == Print(done) && AllOk(done) && CountsOk(done)
  }

  ghost predicate RulesOk(body: Bytes) {
    Parse(body).Some? && AllOk(Parse(body).value) && CountsOk(Parse(body).value)
  }

  // Counters and flags kept beside the walk.
  ghost predicate Tallied(done: seq<Entry>, counts: seq<nat>, urlA: bool, urlB: bool) {
    && |counts| == NAMESPACES
    && (forall ns :: 1 <= ns < NAMESPACES ==> counts[ns] == CountOf(done, ns))
    && urlA == HasField(done, URL_A) && urlB == HasField(done, URL_B)
  }

  lemma WalkStart(body: Bytes)
    ensures Walked(body, 0, []) && Tallied([], [0, 0, 0, 0, 0], false, false)
  {
    assert body[..0] == [];
    forall ns | 1 <= ns < NAMESPACES ensures CountOf([], ns) == 0 {
    }
  }

  lemma WalkSplit(body: Bytes, p: nat, done: seq<Entry>)
    requires Walked(body, p, done)
    ensures Parse(body) == if Parse(body[p..]).None? then None else Some(done + Parse(body[p..]).value)
  {
    hide Print, Parse, AllOk, CountsOk;
    ParsePrefix(done, body[p..]);
    assert body[..p] + body[p..] == body;
  }

  lemma FrameFails(body: Bytes, p: nat, done: seq<Entry>)
    requires Walked(body, p, done) && p < |body| && ReadEntry(body[p..]).None?
    ensures !RulesOk(body)
  {
    WalkSplit(body, p, done);
  }

  // A bad entry, or one too many, spoils the whole body.
  lemma EntryFails(body: Bytes, p: nat, done: seq<Entry>, e: Entry, n: nat)
    requires Walked(body, p, done) && p < |body| && ReadEntry(body[p..]) == Some((e, n))
    requires !AllOk(done + [e]) || !CountsOk(done + [e])
    ensures !RulesOk(body)
  {
    hide ReadEntry, AllOk, CountsOk, Walked, Parse, Printable, EntryBytes;
    WalkSplit(body, p, done);
    if RulesOk(body) {
      ParseFirst(body[p..]);
      var rest := Parse(body[p..][n..]).value;
      assert done + ([e] + rest) == done + [e] + rest;
      PrefixRules(done + [e], rest);
    }
  }

  lemma ParseFirst(body: Bytes)
    requires body != [] && Parse(body).Some?
    ensures ReadEntry(body).Some?
    ensures var (e, n) := ReadEntry(body).value;
            Parse(body[n..]).Some? && Parse(body).value == [e] + Parse(body[n..]).value
  {
  }

  lemma WalkOn(body: Bytes, p: nat, done: seq<Entry>, e: Entry, n: nat)
    requires Walked(body, p, done) && p < |body| && ReadEntry(body[p..]) == Some((e, n))
    requires EntryOk(e) && (e.ns != 0 ==> CountOf(done + [e], e.ns) <= BoundsOf(e.ns).maxEntries)
    ensures Walked(body, p + n, done + [e])
  {
    hide ReadEntry, EntryBytes, Print, EntryOk, BoundsOf, CountOf;
    PrintSnoc(done, e);
    assert body[..p + n] == body[..p] + body[p..][..n];
    forall ns | 1 <= ns < NAMESPACES ensures CountOf(done + [e], ns) <= BoundsOf(ns).maxEntries {
      CountSnoc(done, e, ns);
    }
  }

  lemma WalkEnds(body: Bytes, done: seq<Entry>)
    requires Walked(body, |body|, done)
    ensures Parse(body) == Some(done) && RulesOk(body)
  {
    WalkSplit(body, |body|, done);
    assert body[|body|..] == [] && done + [] == done;
  }

  lemma TallyOn(done: seq<Entry>, e: Entry, counts: seq<nat>, urlA: bool, urlB: bool, field: nat)
    requires Tallied(done, counts, urlA, urlB) && e.ns < NAMESPACES
    requires e.ns == 0 ==> field < NUM_FIELDS && FieldKey(field) == e.item.key
    ensures Tallied(done + [e], if e.ns == 0 then counts else counts[e.ns := counts[e.ns] + 1],
                    urlA || (e.ns == 0 && field == URL_A), urlB || (e.ns == 0 && field == URL_B))
  {
    hide FieldKey, CountOf, HasField;
    HasSnoc(done, e, URL_A);
    HasSnoc(done, e, URL_B);
    if e.ns == 0 {
      SameField(field, URL_A);
      SameField(field, URL_B);
    }
    forall ns | 1 <= ns < NAMESPACES
      ensures CountOf(done + [e], ns) == CountOf(done, ns) + (if e.ns == ns then 1 else 0)
    {
      CountSnoc(done, e, ns);
    }
  }

  lemma SameField(i: nat, j: nat)
    requires i < NUM_FIELDS && j < NUM_FIELDS
    ensures FieldKey(i) == FieldKey(j) <==> i == j
  {
    hide FieldKey;
    if FieldKey(i) == FieldKey(j) {
      KeysDiffer(i, j);
    }
  }

  // One entry against the rules and the counters.
  method CheckEntry(e: Entry, counts: seq<nat>, ghost done: seq<Entry>, ghost urlA: bool, ghost urlB: bool)
    returns (ok: bool, counts': seq<nat>, field: nat)
    requires e.ns < NAMESPACES && Tallied(done, counts, urlA, urlB)
    ensures ok == (EntryOk(e) && (e.ns != 0 ==> CountOf(done + [e], e.ns) <= BoundsOf(e.ns).maxEntries))
    ensures ok ==> Tallied(done + [e], counts', urlA || (e.ns == 0 && field == URL_A),
                           urlB || (e.ns == 0 && field == URL_B))
  {
    hide Tallied, EntryOk, FieldKey, UserEntryOk, CountOf;
    counts', field := counts, 0;
    if e.ns == 0 {
      ok, field := CheckField(e.item);
      if ok {
        TallyOn(done, e, counts, urlA, urlB, field);
      }
    } else {
      TallyCount(done, e, counts, urlA, urlB);
      ok := UserEntryValid(e.ns, e.item.key, |e.item.value|);
      UserEntry(e);
      if ok {
        counts' := counts[e.ns := counts[e.ns] + 1];
        ok := counts'[e.ns] <= BoundsOf(e.ns).maxEntries;
        TallyOn(done, e, counts, urlA, urlB, 0);
      }
    }
  }

  lemma UserEntry(e: Entry)
    requires e.ns != 0
    ensures EntryOk(e) == UserEntryOk(e.ns, e.item.key, |e.item.value|)
  {
  }

  lemma TallyCount(done: seq<Entry>, e: Entry, counts: seq<nat>, urlA: bool, urlB: bool)
    requires Tallied(done, counts, urlA, urlB) && 1 <= e.ns < NAMESPACES
    ensures |counts| == NAMESPACES && CountOf(done + [e], e.ns) == counts[e.ns] + 1
  {
    CountSnoc(done, e, e.ns);
  }

  lemma ApplySnoc(maps: Maps, done: seq<Entry>, e: Entry)
    requires |maps| == NAMESPACES && AllPrintable(done) && Printable(e)
    ensures Apply(maps, done + [e]) ==
            var m := Apply(maps, done); m[e.ns := Replace(m[e.ns], e.item.key, e.item.value)]
  {
    assert (done + [e])[..|done|] == done;
  }

  // The validating pass (no store) and the storing pass, which on an acceptable body fails exactly when the
  // map library does.
  method WalkEntries(nvs: Nvs?, body: Bytes) returns (ok: bool)
    requires nvs != null ==> nvs.Valid()
    modifies nvs
    ensures nvs == null ==> (ok <==> BodyOk(body))
    ensures nvs != null ==> nvs.Valid() && (ok ==> RulesOk(body))
    ensures nvs != null && RulesOk(body) ==>
              StoredBy(nvs.serves, old(nvs.maps), old(nvs.calls), Parse(body).value, nvs.maps, nvs.calls, ok)
  {
    assert nvs != null ==> |nvs.maps| == NAMESPACES;
    hide Walked, Tallied, RulesOk, Apply, EntryOk, ReadEntry, MapsOk, Parse, CountOf, BoundsOf, StoredBy, Storing;
    var p: nat, counts, urlA, urlB := 0, [0, 0, 0, 0, 0], false, false;
    ghost var done := [];
    WalkStart(body);
    if nvs != null {
      StoringStarts(nvs.serves, nvs.maps, nvs.calls);
    }
    while p < |body|
      invariant p <= |body| && Walked(body, p, done) && Tallied(done, counts, urlA, urlB)
      invariant AllPrintable(done)
      invariant nvs != null ==> nvs.Valid() && |old(nvs.maps)| == NAMESPACES
      invariant nvs != null ==> Storing(nvs.serves, old(nvs.maps), old(nvs.calls), done, nvs.maps, nvs.calls)
      decreases |body| - p
    {
      var r := ReadFrame(body, p);
      if r.None? {
        FrameFails(body, p, done);
        RulesNeeded(body);
        return false;
      }
      var e, n := r.value.0, r.value.1;
      var fits, counts', field := CheckEntry(e, counts, done, urlA, urlB);
      if !fits {
        BadEntry(done, e);
        EntryFails(body, p, done, e, n);
        RulesNeeded(body);
        return false;
      }
      if nvs != null {
        var put := StoreEntry(nvs, e, body, p, old(nvs.maps), old(nvs.calls), done);
        if !put {
          return false;
        }
      }
      WalkOn(body, p, done, e, n);
      counts, urlA, urlB := counts', urlA || (e.ns == 0 && field == URL_A), urlB || (e.ns == 0 && field == URL_B);
      p, done := p + n, done + [e];
    }
    WalkEnds(body, done);
    ok := nvs != null || urlA == urlB;
    UrlsTogether(body, done, counts, urlA, urlB);
    if nvs != null {
      StoredAll(nvs.serves, old(nvs.maps), old(nvs.calls), done, nvs.maps, nvs.calls);
    }
  }

  // How far the storing pass has come.
  ghost predicate Storing(serves: nat -> bool, was: Maps, at: nat, done: seq<Entry>, now: Maps, calls: nat)
    requires |was| == NAMESPACES && AllPrintable(done)
  {
    && now == Apply(was, done) && calls == at + |done|
    && forall j :: at <= j < calls ==> serves(j)
  }

  lemma StoringStarts(serves: nat -> bool, maps: Maps, calls: nat)
    requires |maps| == NAMESPACES
    ensures Storing(serves, maps, calls, [], maps, calls)
  {
  }

  method StoreEntry(nvs: Nvs, e: Entry, ghost body: Bytes, ghost p: nat, ghost was: Maps, ghost at: nat,
                    ghost done: seq<Entry>)
    returns (put: bool)
    requires nvs.Valid() && Printable(e) && AllPrintable(done) && |was| == NAMESPACES
    requires Storing(nvs.serves, was, at, done, nvs.maps, nvs.calls) && Walked(body, p, done) && p < |body|
    modifies nvs
    ensures nvs.Valid() && (put ==> Storing(nvs.serves, was, at, done + [e], nvs.maps, nvs.calls))
    ensures !put && RulesOk(body) ==>
              StoredBy(nvs.serves, was, at, Parse(body).value, nvs.maps, nvs.calls, false)
  {
    hide Apply, Walked, RulesOk, StoredBy, MapsOk;
    put := nvs.MapReplace(e.ns, e.item.key, e.item.value);
    if put {
      ApplySnoc(was, done, e);
    } else {
      StoppedAt(body, p, done);
      StoredPart(nvs.serves, was, at, body, done);
    }
  }

  // What the walk has stored when the library stops it: an acceptable body has more entries than that.
  lemma StoppedAt(body: Bytes, p: nat, done: seq<Entry>)
    requires Walked(body, p, done) && p < |body|
    ensures RulesOk(body) ==> |done| < |Parse(body).value| && done == Parse(body).value[..|done|]
  {
    hide ReadEntry, AllOk, CountsOk, Walked, Parse, Printable, EntryBytes;
    WalkSplit(body, p, done);
    if RulesOk(body) {
      ParseFirst(body[p..]);
    }
  }

  lemma StoredPart(serves: nat -> bool, was: Maps, at: nat, body: Bytes, done: seq<Entry>)
    requires |was| == NAMESPACES && AllPrintable(done)
    requires RulesOk(body) ==> |done| < |Parse(body).value| && done == Parse(body).value[..|done|]
    requires !serves(at + |done|) && forall j :: at <= j < at + |done| ==> serves(j)
    ensures RulesOk(body) ==>
              StoredBy(serves, was, at, Parse(body).value, Apply(was, done), at + |done| + 1, false)
  {
    hide Parse, Apply, AllOk, CountsOk;
    if RulesOk(body) {
      ServedIs(serves, at, |Parse(body).value|, |done|);
    }
  }

  lemma StoredAll(serves: nat -> bool, was: Maps, at: nat, es: seq<Entry>, now: Maps, calls: nat)
    requires |was| == NAMESPACES && AllPrintable(es) && Storing(serves, was, at, es, now, calls)
    ensures StoredBy(serves, was, at, es, now, calls, true)
  {
    hide Apply;
    ServedIs(serves, at, |es|, |es|);
    assert es[..|es|] == es;
  }

  lemma ApplyNone(maps: Maps)
    requires |maps| == NAMESPACES
    ensures Apply(maps, []) == maps
  {
  }

  lemma RulesNeeded(body: Bytes)
    ensures BodyOk(body) ==> RulesOk(body)
  {
  }

  lemma BadEntry(done: seq<Entry>, e: Entry)
    requires !(EntryOk(e) && (e.ns != 0 ==> CountOf(done + [e], e.ns) <= BoundsOf(e.ns).maxEntries))
    requires e.ns < NAMESPACES
    ensures !AllOk(done + [e]) || !CountsOk(done + [e])
  {
    hide EntryOk;
    assert (done + [e])[|done|] == e;
  }

  lemma UrlsTogether(body: Bytes, done: seq<Entry>, counts: seq<nat>, urlA: bool, urlB: bool)
    requires Parse(body) == Some(done) && RulesOk(body) && Tallied(done, counts, urlA, urlB)
    ensures BodyOk(body) <==> urlA == urlB
  {
  }
}
