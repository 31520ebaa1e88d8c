// The layout of the settings blob's entries (libjade/pijade_settings.c): printing and parsing undo each other.
module SettingsFormat {
  import opened Options
  import opened SettingsFields

  predicate Printable(e: Entry) {
    e.ns < NAMESPACES && 1 <= |e.item.key| < 256 && |e.item.value| < 65536
  }

  // ns, key length, key, value length in two bytes, value.
  function EntryBytes(e: Entry): (b: Bytes)
    requires Printable(e)
    ensures |b| == 4 + |e.item.key| + |e.item.value|
  {
    var n := |e.item.value|;
    [e.ns, |e.item.key|] + e.item.key + [n % 256, n / 256] + e.item.value
  }

  ghost predicate AllPrintable(es: seq<Entry>) {
    forall i :: 0 <= i < |es| ==> Printable(es[i])
  }

  function Print(es: seq<Entry>): Bytes
    requires AllPrintable(es)
  {
    if es == [] then [] else EntryBytes(es[0]) + Print(es[1..])
  }

  // The first entry and how many bytes it takes; None if the framing does not hold.
  function ReadEntry(body: Bytes): (r: Option<(Entry, nat)>)
    ensures r.Some? ==> 0 < r.value.1 <= |body| && Printable(r.value.0) && EntryBytes(r.value.0) == body[..r.value.1]
  {
    if |body| < 2 || body[0] >= NAMESPACES then None
    else
      var k := body[1] as nat;
      if k == 0 || |body| - 2 < k + 2 then None
      else
        var n := body[2 + k] as nat + 256 * body[3 + k] as nat;
        if |body| - 4 - k < n then None
        else
          var e := Entry(body[0], Item(body[2..2 + k], body[4 + k..4 + k + n]));
          assert EntryBytes(e) == body[..4 + k + n];
          Some((e, 4 + k + n))
  }

  function Parse(body: Bytes): (r: Option<seq<Entry>>)
    ensures r.Some? ==> AllPrintable(r.value)
    decreases |body|
  {
    if body == [] then Some([])
    else if ReadEntry(body).None? then None
    else
      var (e, n) := ReadEntry(body).value;
      var rest := Parse(body[n..]);
      if rest.None? then None else Some([e] + rest.value)
  }

  lemma ReadPrinted(e: Entry, rest: Bytes)
    requires Printable(e)
    ensures ReadEntry(EntryBytes(e) + rest) == Some((e, |EntryBytes(e)|))
  {
    var body, k, n := EntryBytes(e) + rest, |e.item.key|, |e.item.value|;
    assert body[0] == e.ns && body[1] == k && body[2 + k] == n % 256 && body[3 + k] == n / 256;
    assert body[2..2 + k] == e.item.key;
    assert body[4 + k..4 + k + n] == e.item.value;
  }

  // Entries in front are read first, whatever follows them.
  lemma {:induction false} ParsePrefix(es: seq<Entry>, rest: Bytes)
    requires AllPrintable(es)
    ensures Parse(Print(es) + rest) == if Parse(rest).None? then None else Some(es + Parse(rest).value)
  {
    hide EntryBytes, ReadEntry, Print, Parse, Printable;
    if es == [] {
      PrintNone();
      assert [] + rest == rest;
      assert Parse(rest).Some? ==> es + Parse(rest).value == Parse(rest).value;
    } else {
      var b, tail := EntryBytes(es[0]), Print(es[1..]) + rest;
      PrintHead(es);
      assert Print(es) + rest == b + tail;
      ParseHead(es[0], tail);
      ParsePrefix(es[1..], rest);
      assert Parse(rest).Some? ==> [es[0]] + (es[1..] + Parse(rest).value) == es + Parse(rest).value;
    }
  }

  lemma PrintNone()
    ensures Print([]) == []
  {
  }

  lemma ParseHead(e: Entry, tail: Bytes)
    requires Printable(e)
    ensures Parse(EntryBytes(e) + tail) == if Parse(tail).None? then None else Some([e] + Parse(tail).value)
  {
    hide EntryBytes, ReadEntry;
    ReadPrinted(e, tail);
    var b := EntryBytes(e);
    assert (b + tail)[|b|..] == tail;
  }

  lemma PrintHead(es: seq<Entry>)
    requires AllPrintable(es) && es != []
    ensures Print(es) == EntryBytes(es[0]) + Print(es[1..])
  {
  }

  // What is printed is read back.
  lemma ParsePrint(es: seq<Entry>)
    requires AllPrintable(es)
    ensures Parse(Print(es)) == Some(es)
  {
    ParsePrefix(es, []);
    assert Print(es) + [] == Print(es);
    assert es + [] == es;
  }

  // And only what is printed is read: the framing is unambiguous.
  lemma {:induction false} PrintParse(body: Bytes)
    requires Parse(body).Some?
    ensures Print(Parse(body).value) == body
    decreases |body|
  {
    if body != [] {
      var (e, n) := ReadEntry(body).value;
      PrintParse(body[n..]);
      var rest := Parse(body[n..]).value;
      hide ReadEntry, Parse;
      assert ([e] + rest)[1..] == rest;
      assert body[..n] + body[n..] == body;
    }
  }

  lemma {:induction false} PrintConcat(a: seq<Entry>, b: seq<Entry>)
    requires AllPrintable(a) && AllPrintable(b)
    ensures Print(a + b) == Print(a) + Print(b)
  {
    if a == [] {
      assert a + b == b;
    } else {
      PrintConcat(a[1..], b);
      assert (a + b)[1..] == a[1..] + b;
    }
  }

  lemma PrintSnoc(a: seq<Entry>, e: Entry)
    requires AllPrintable(a) && Printable(e)
    ensures Print(a + [e]) == Print(a) + EntryBytes(e)
  {
    PrintConcat(a, [e]);
    assert [e][1..] == [];
  }

  // ---------------------------------------------------------------- what a body must satisfy

  function CountOf(es: seq<Entry>, ns: nat): (n: nat)
    ensures n <= |es|
  {
    if es == [] then 0
    else CountOf(es[..|es| - 1], ns) + (if es[|es| - 1].ns == ns then 1 else 0)
  }

  ghost predicate HasField(es: seq<Entry>, i: nat)
    requires i < NUM_FIELDS
  {
    exists k :: 0 <= k < |es| && es[k].ns == 0 && es[k].item.key == FieldKey(i)
  }

  ghost predicate AllOk(es: seq<Entry>) {
    forall i :: 0 <= i < |es| ==> EntryOk(es[i])
  }

  ghost predicate CountsOk(es: seq<Entry>) {
    forall ns :: 1 <= ns < NAMESPACES ==> CountOf(es, ns) <= BoundsOf(ns).maxEntries
  }

  // Every entry within bounds, no namespace over its ceiling, the two pinserver URLs together.
  ghost predicate Accepts(es: seq<Entry>) {
    AllOk(es) && CountsOk(es) && (HasField(es, URL_A) <==> HasField(es, URL_B))
  }

  ghost predicate BodyOk(body: Bytes) {
    Parse(body).Some? && Accepts(Parse(body).value)
  }

  lemma OkPrintable(e: Entry)
    requires EntryOk(e)
    ensures Printable(e)
  {
    if e.ns == 0 {
      FieldsPlain(FieldOf(e.item.key).value);
    }
  }

  lemma {:induction false} CountMonotone(a: seq<Entry>, b: seq<Entry>, ns: nat)
    ensures CountOf(a, ns) <= CountOf(a + b, ns)
    decreases |b|
  {
    if b == [] {
      assert a + b == a;
    } else {
      CountMonotone(a, b[..|b| - 1], ns);
      assert (a + b)[..|a + b| - 1] == a + b[..|b| - 1];
    }
  }

  // A prefix that breaks a rule breaks it for the whole.
  lemma PrefixRules(a: seq<Entry>, b: seq<Entry>)
    requires AllOk(a + b) && CountsOk(a + b)
    ensures AllOk(a) && CountsOk(a)
  {
    forall i | 0 <= i < |a| ensures EntryOk(a[i]) {
      assert (a + b)[i] == a[i];
    }
    forall ns | 1 <= ns < NAMESPACES ensures CountOf(a, ns) <= BoundsOf(ns).maxEntries {
      CountMonotone(a, b, ns);
    }
  }

  lemma CountSnoc(a: seq<Entry>, e: Entry, ns: nat)
    ensures CountOf(a + [e], ns) == CountOf(a, ns) + (if e.ns == ns then 1 else 0)
  {
    assert (a + [e])[..|a|] == a;
  }

  lemma HasSnoc(a: seq<Entry>, e: Entry, i: nat)
    requires i < NUM_FIELDS
    ensures HasField(a + [e], i) <==> HasField(a, i) || (e.ns == 0 && e.item.key == FieldKey(i))
  {
    hide FieldKey;
    var b := a + [e];
    if HasField(a, i) {
      var k :| 0 <= k < |a| && a[k].ns == 0 && a[k].item.key == FieldKey(i);
      assert b[k] == a[k];
    }
    if e.ns == 0 && e.item.key == FieldKey(i) {
      assert b[|a|] == e;
    }
  }
}
