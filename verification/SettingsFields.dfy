// Which settings reach the card, and within what bounds (libjade/pijade_settings.c).
module SettingsFields {
  import opened Bits
  import opened Options

  type Bytes = seq<Byte>

  datatype Field = Field(name: string, minLen: nat, maxLen: nat, nulTerminated: bool)
  datatype Bounds = Bounds(minLen: nat, maxLen: nat, modulo: nat, maxEntries: nat)
  datatype Item = Item(key: Bytes, value: Bytes)

  const NUM_FIELDS := 17
  const NAMESPACES := 5
  const KEY_NAME_MAX := 16     // NVS_KEY_NAME_MAX_SIZE
  const AES_BLOCK := 16
  const ANTIREPLAY := 8
  const NETWORK_TYPE := 12
  const URL_A := 13
  const URL_B := 14

  const FIELDS: seq<Field> := [
    Field("guiflags", 1, 1, false),
    Field("idletimeout", 2, 2, false),
    Field("screentimeout", 2, 2, false),
    Field("brightness", 1, 1, false),
    Field("qrflags", 4, 4, false),
    Field("privatekey", 32, 32, false),
    Field("blob", 80, 256, false),
    Field("counter", 1, 1, false),
    Field("antireplay", 4, 4, false),
    Field("keyflags", 1, 1, false),
    Field("featflags", 1, 1, false),
    Field("walleterasepin", 48, 48, false),
    Field("networktype", 4, 4, false),
    Field("pinsvrurlA", 1, 120, true),
    Field("pinsvrurlB", 1, 120, true),
    Field("pinsvrpubkey", 33, 33, false),
    Field("pinsvrcert", 1, 2048, true)]

  // Namespaces 1 to 4: multisigs, descriptors, OTP records, HOTP counters.
  function BoundsOf(ns: nat): Bounds
    requires 1 <= ns < NAMESPACES
  {
    if ns == 1 then Bounds(114, 3281, 0, 16)
    else if ns == 2 then Bounds(41, 3281, 0, 16)
    else if ns == 3 then Bounds(32, 288, 16, 16)
    else Bounds(8, 8, 0, 16)
  }

  predicate Plain(s: string) {
    forall i :: 0 <= i < |s| ==> s[i] < 128 as char
  }

  function Ascii(s: string): (b: Bytes)
    requires Plain(s)
    ensures |b| == |s|
  {
    seq(|s|, i requires 0 <= i < |s| => s[i] as nat)
  }

  lemma AsciiInjective(s: string, t: string)
    requires Plain(s) && Plain(t) && Ascii(s) == Ascii(t)
    ensures s == t
  {
    forall i | 0 <= i < |s| ensures s[i] == t[i] {
      assert Ascii(s)[i] == Ascii(t)[i];
    }
  }

  lemma FirstNamesPlain(i: nat)
    requires i < 8
    ensures Plain(FIELDS[i].name)
  {
  }

  lemma LastNamesPlain(i: nat)
    requires 8 <= i < NUM_FIELDS
    ensures Plain(FIELDS[i].name)
  {
  }

  lemma FieldsPlain(i: nat)
    requires i < NUM_FIELDS
    ensures |FIELDS| == NUM_FIELDS && Plain(FIELDS[i].name) && 1 <= |FIELDS[i].name| < KEY_NAME_MAX
    ensures 1 <= FIELDS[i].minLen <= FIELDS[i].maxLen <= 2048
  {
    if i < 8 {
      FirstNamesPlain(i);
    } else {
      LastNamesPlain(i);
    }
    hide Plain;
  }

  lemma NamesDiffer(i: nat, j: nat)
    requires i < j < NUM_FIELDS
    ensures FIELDS[i].name != FIELDS[j].name
  {
  }

  function FieldKey(i: nat): (b: Bytes)
    requires i < NUM_FIELDS
    ensures 1 <= |b| < KEY_NAME_MAX
  {
    FieldsPlain(i);
    Ascii(FIELDS[i].name)
  }

  lemma KeysDiffer(i: nat, j: nat)
    requires i < NUM_FIELDS && j < NUM_FIELDS && FieldKey(i) == FieldKey(j)
    ensures i == j
  {
    FieldsPlain(i);
    hide FIELDS;
    FieldsPlain(j);
    AsciiInjective(FIELDS[i].name, FIELDS[j].name);
    if i < j {
      NamesDiffer(i, j);
    } else if j < i {
      NamesDiffer(j, i);
    }
  }

  // The field a key names, if it is one that is kept.
  ghost function FieldOf(key: Bytes): (r: Option<nat>)
    ensures r.Some? ==> r.value < NUM_FIELDS && FieldKey(r.value) == key
    ensures r.None? ==> forall i :: 0 <= i < NUM_FIELDS ==> FieldKey(i) != key
  {
    if i :| 0 <= i < NUM_FIELDS && FieldKey(i) == key then Some(i) else None
  }

  method FindField(key: Bytes) returns (r: Option<nat>)
    ensures r == FieldOf(key)
  {
    hide FieldKey;
    for i := 0 to NUM_FIELDS
      invariant forall k :: 0 <= k < i ==> FieldKey(k) != key
    {
      if FieldKey(i) == key {
        KeysDiffer(i, FieldOf(key).value);
        return Some(i);
      }
    }
    return None;
  }

  // ---------------------------------------------------------------- what may be stored

  function Le32(v: Bytes): nat
    requires |v| == 4
  {
    v[0] as nat + 256 * v[1] as nat + 65536 * v[2] as nat + 16777216 * v[3] as nat
  }

  predicate InRange(i: nat, len: nat)
    requires i < NUM_FIELDS
  {
    FieldsPlain(i);
    FIELDS[i].minLen <= len <= FIELDS[i].maxLen
  }

  // Width, terminating NUL, a replay counter that is not all ones, a network type that exists.
  predicate FieldValueOk(i: nat, v: Bytes)
    requires i < NUM_FIELDS
  {
    FieldsPlain(i);
    && InRange(i, |v|)
    && (FIELDS[i].nulTerminated ==> v[|v| - 1] == 0)
    && (i == ANTIREPLAY ==> Le32(v) != 0xffffffff)
    && (i == NETWORK_TYPE ==> Le32(v) <= 2)
  }

  predicate Graphic(key: Bytes) {
    1 <= |key| < KEY_NAME_MAX && forall i :: 0 <= i < |key| ==> 33 <= key[i] <= 126
  }

  predicate UserEntryOk(ns: nat, key: Bytes, len: nat) {
    && 1 <= ns < NAMESPACES && Graphic(key)
    && BoundsOf(ns).minLen <= len <= BoundsOf(ns).maxLen
    && (BoundsOf(ns).modulo != 0 ==> (len - AES_BLOCK) % BoundsOf(ns).modulo == 0)
  }

  method UserEntryValid(ns: nat, key: Bytes, len: nat) returns (ok: bool)
    ensures ok == UserEntryOk(ns, key, len)
  {
    if ns == 0 || ns >= NAMESPACES {
      return false;
    }
    if key == [] || |key| >= KEY_NAME_MAX {
      return false;
    }
    for i := 0 to |key|
      invariant forall k :: 0 <= k < i ==> 33 <= key[k] <= 126
    {
      if key[i] < 33 || key[i] > 126 {
        return false;
      }
    }
    var b := BoundsOf(ns);
    if len < b.minLen || len > b.maxLen {
      return false;
    }
    return b.modulo == 0 || (len - AES_BLOCK) % b.modulo == 0;
  }

  datatype Entry = Entry(ns: nat, item: Item)

  ghost predicate EntryOk(e: Entry) {
    if e.ns == 0 then FieldOf(e.item.key).Some? && FieldValueOk(FieldOf(e.item.key).value, e.item.value)
    else UserEntryOk(e.ns, e.item.key, |e.item.value|)
  }
}
