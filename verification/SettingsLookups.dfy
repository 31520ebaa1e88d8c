// What a caller of libjade/nvs_flash.c can look up after each kind of call, whatever ran before, and after a restart.
module SettingsLookups {
  import opened Options
  import opened SettingsFields
  import opened SettingsStore
  import opened SettingsBlob
  import opened SettingsRuns

  // What a lookup answers after these calls.
  ghost function Answer(evs: seq<Event>, ns: nat, key: Bytes, digest: Bytes -> Digest): Option<Bytes>
    requires ns < NAMESPACES
  {
    Lookup(Run(evs, digest).maps[ns], key)
  }

  // After a write that succeeded the key has the value, after a removal that succeeded it has none, and every other
  // key of that namespace and of the others answers as before. A call that failed changes no answer.
  lemma WriteAnswers(evs: seq<Event>, ns: nat, key: Bytes, value: Bytes, mapOk: bool, at: nat, k: Bytes,
                     digest: Bytes -> Digest)
    requires ns < NAMESPACES && at < NAMESPACES
    ensures Answer(evs + [Write(ns, key, value, mapOk)], at, k, digest) ==
            if mapOk && at == ns && k == key then Some(value) else Answer(evs, at, k, digest)
  {
    RunNext(evs, Write(ns, key, value, mapOk), digest);
    hide Run, Lookup, Replace, Boot, Blob, Writable;
    ReplaceLooksUp(Run(evs, digest).maps[ns], key, value, k);
  }

  lemma EraseAnswers(evs: seq<Event>, ns: nat, key: Bytes, mapOk: bool, at: nat, k: Bytes, digest: Bytes -> Digest)
    requires ns < NAMESPACES && at < NAMESPACES
    ensures Answer(evs + [Erase(ns, key, mapOk)], at, k, digest) ==
            if mapOk && at == ns && k == key then None else Answer(evs, at, k, digest)
  {
    RunNext(evs, Erase(ns, key, mapOk), digest);
    RunOk(evs, digest);
    hide Run, Lookup, Remove, Boot, Blob, Writable;
    RemoveLooksUp(Run(evs, digest).maps[ns], key, k);
  }

  // A factory reset leaves no answer, whatever the host says to it; a commit and a change of handler change none.
  lemma ResetAnswers(evs: seq<Event>, hostOk: bool, at: nat, k: Bytes, digest: Bytes -> Digest)
    requires at < NAMESPACES
    ensures Answer(evs + [Reset(hostOk)], at, k, digest) == None
  {
    RunNext(evs, Reset(hostOk), digest);
    hide Run, Boot, Blob, Writable;
  }

  lemma OthersAnswer(evs: seq<Event>, ns: nat, hostOk: bool, on: bool, at: nat, k: Bytes, digest: Bytes -> Digest)
    requires at < NAMESPACES
    ensures Answer(evs + [Commit(ns, hostOk)], at, k, digest) == Answer(evs, at, k, digest)
    ensures Answer(evs + [SetHandler(on)], at, k, digest) == Answer(evs, at, k, digest)
  {
    RunNext(evs, Commit(ns, hostOk), digest);
    RunNext(evs, SetHandler(on), digest);
    hide Run, Lookup, Boot, Blob, Writable;
  }

  // ---------------------------------------------------------------- and after a restart

  // Of the default namespace, the listed fields set within their widths; of the others, everything.
  ghost predicate Persists(ns: nat, key: Bytes, value: Option<Bytes>) {
    ns > 0 || (FieldOf(key).Some? && value.Some? &&
               (FieldsPlain(FieldOf(key).value);
                FIELDS[FieldOf(key).value].minLen <= |value.value| <= FIELDS[FieldOf(key).value].maxLen))
  }

  lemma PersistableAnswers(maps: Maps, at: nat, k: Bytes)
    requires |maps| == NAMESPACES && at < NAMESPACES
    ensures Lookup(Persistable(maps)[at], k) ==
            if Persists(at, k, Lookup(maps[at], k)) then Lookup(maps[at], k) else None
  {
    hide Lookup, FieldEntries, FIELDS;
    if at == 0 {
      FieldsLookup(maps[0], NUM_FIELDS, k);
    }
  }

  // A handler is there, the store keeps the loader's rules, and a restart has room for all its entries.
  ghost predicate Savable(evs: seq<Event>, room: nat, digest: Bytes -> Digest) {
    var d := Run(evs, digest);
    d.handler && Writable(d.maps) && room >= |StoreEntries(d.maps)|
  }

  // Who is told of commits: whoever was set last, since the last restart.
  lemma HandlerIs(evs: seq<Event>, ev: Event, digest: Bytes -> Digest)
    ensures Run(evs + [ev], digest).handler ==
            if ev.SetHandler? then ev.on else if ev.Restart? then false else Run(evs, digest).handler
    ensures !Run([], digest).handler
  {
    RunNext(evs, ev, digest);
    hide Run, Boot, Blob, Writable, Replace, Remove;
    NewRun(digest);
  }

  // What was written and committed with a handler answers after a restart with enough room, and nothing else does.
  lemma CommittedAnswers(evs: seq<Event>, ns: nat, room: nat, at: nat, k: Bytes, digest: Bytes -> Digest)
    requires at < NAMESPACES && ns < NAMESPACES && Savable(evs, room, digest)
    ensures Answer(evs + [Commit(ns, true), Restart(room)], at, k, digest) ==
            if Persists(at, k, Answer(evs, at, k, digest)) then Answer(evs, at, k, digest) else None
  {
    hide Run, Lookup, Persistable, StoreEntries, Persists, LastSaved, Writable, Blob;
    CommitSticks(evs, ns, true, room, digest);
    PersistableAnswers(Run(evs, digest).maps, at, k);
  }

  // A removal, committed and restarted: gone for good, and all that persists of the rest still there.
  lemma EraseLasts(evs: seq<Event>, ns: nat, key: Bytes, room: nat, at: nat, k: Bytes, digest: Bytes -> Digest)
    requires ns < NAMESPACES && at < NAMESPACES
    requires Savable(evs + [Erase(ns, key, true)], room, digest)
    ensures var before := Answer(evs, at, k, digest);
            Answer(evs + [Erase(ns, key, true)] + [Commit(ns, true), Restart(room)], at, k, digest) ==
            if (at == ns && k == key) || !Persists(at, k, before) then None else before
  {
    hide Run, Lookup, StoreEntries, Savable, Answer;
    EraseAnswers(evs, ns, key, true, at, k, digest);
    CommittedAnswers(evs + [Erase(ns, key, true)], ns, room, at, k, digest);
  }

  // A write, committed and restarted: there with its value if it persists, and so is all that persists of the rest.
  lemma WriteLasts(evs: seq<Event>, ns: nat, key: Bytes, value: Bytes, room: nat, at: nat, k: Bytes,
                   digest: Bytes -> Digest)
    requires ns < NAMESPACES && at < NAMESPACES
    requires Savable(evs + [Write(ns, key, value, true)], room, digest)
    ensures var now := if at == ns && k == key then Some(value) else Answer(evs, at, k, digest);
            Answer(evs + [Write(ns, key, value, true)] + [Commit(ns, true), Restart(room)], at, k, digest) ==
            if Persists(at, k, now) then now else None
  {
    hide Run, Lookup, StoreEntries, Savable, Answer, Persists;
    WriteAnswers(evs, ns, key, value, true, at, k, digest);
    CommittedAnswers(evs + [Write(ns, key, value, true)], ns, room, at, k, digest);
  }
}
