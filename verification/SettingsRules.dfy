// Which settings files libjade/pijade_settings.c takes, byte for byte, in the numbers of its own tables.
module SettingsRules {
  import opened Options
  import opened SettingsFields
  import opened SettingsFormat
  import opened SettingsBlob
  import opened SettingsRuns

  // ---------------------------------------------------------------- a body of one entry

  lemma NothingCounted(ns: nat)
    ensures CountOf([], ns) == 0
  {
  }

  // A body of one entry is taken exactly when the entry is within the rules, unless it is one of the two URLs.
  lemma OneEntry(e: Entry)
    requires Printable(e)
    ensures BodyOk(EntryBytes(e)) <==>
            EntryOk(e) && (e.ns == 0 ==> e.item.key != FieldKey(URL_A) && e.item.key != FieldKey(URL_B))
  {
    hide EntryOk, FieldKey, EntryBytes, Parse, Printable;
    var es := [e];
    PrintOne(e);
    ParsePrint(es);
    forall ns | 1 <= ns < NAMESPACES ensures CountOf(es, ns) <= BoundsOf(ns).maxEntries {
      assert es[..0] == [];
      NothingCounted(ns);
    }
    SameField(URL_A, URL_B);
    assert AllOk(es) <==> EntryOk(e) by {
      assert es[0] == e;
    }
    assert HasField(es, URL_A) <==> e.ns == 0 && e.item.key == FieldKey(URL_A) by {
      assert es[0] == e;
    }
    assert HasField(es, URL_B) <==> e.ns == 0 && e.item.key == FieldKey(URL_B) by {
      assert es[0] == e;
    }
  }

  lemma PrintOne(e: Entry)
    requires Printable(e)
    ensures AllPrintable([e]) && Print([e]) == EntryBytes(e)
  {
    assert [e][1..] == [] && EntryBytes(e) + [] == EntryBytes(e);
  }

  // One registration: multisigs 114 to 3281 bytes, descriptors 41 to 3281, OTP records whole cipher blocks from 32 to
  // 288, counters 8; names of 1 to 15 visible characters.
  lemma OneRegistration(ns: nat, key: Bytes, value: Bytes)
    requires 1 <= ns < NAMESPACES && 1 <= |key| < 256 && |value| < 65536
    ensures BodyOk(EntryBytes(Entry(ns, Item(key, value)))) <==>
            && |key| <= 15 && (forall i :: 0 <= i < |key| ==> 33 <= key[i] <= 126)
            && (if ns == 1 then 114 <= |value| <= 3281
                else if ns == 2 then 41 <= |value| <= 3281
                else if ns == 3 then 32 <= |value| <= 288 && |value| % 16 == 0
                else |value| == 8)
  {
    hide FieldKey, EntryBytes, BodyOk;
    OneEntry(Entry(ns, Item(key, value)));
  }

  // One field of the default namespace, other than the URLs.
  lemma OneField(i: nat, value: Bytes)
    requires i < NUM_FIELDS && i != URL_A && i != URL_B && |value| < 65536
    ensures BodyOk(EntryBytes(Entry(0, Item(FieldKey(i), value)))) <==> FieldValueOk(i, value)
  {
    SameField(i, URL_A);
    SameField(i, URL_B);
    hide FieldKey, EntryBytes, BodyOk, FieldValueOk;
    OneEntry(Entry(0, Item(FieldKey(i), value)));
    var f := FieldOf(FieldKey(i));
    assert f.Some? by {
      assert FieldKey(i) == FieldKey(i);
    }
    SameField(f.value, i);
  }

  // A replay counter is four bytes, not all of them 255.
  lemma ReplayCounter(value: Bytes)
    requires |value| < 65536
    ensures FieldKey(ANTIREPLAY) == Ascii("antireplay")
    ensures BodyOk(EntryBytes(Entry(0, Item(FieldKey(ANTIREPLAY), value)))) <==>
            |value| == 4 && value != [255, 255, 255, 255]
  {
    OneField(ANTIREPLAY, value);
    hide EntryBytes, BodyOk;
  }

  // A network type is 0, 1 or 2, in four bytes with the lowest first.
  lemma NetworkType(value: Bytes)
    requires |value| < 65536
    ensures FieldKey(NETWORK_TYPE) == Ascii("networktype")
    ensures BodyOk(EntryBytes(Entry(0, Item(FieldKey(NETWORK_TYPE), value)))) <==>
            |value| == 4 && value[0] <= 2 && value[1] == value[2] == value[3] == 0
  {
    OneField(NETWORK_TYPE, value);
    hide EntryBytes, BodyOk;
  }

  // The fields of a wallet: its encrypted blob, the key and verifier of its PIN, and the server's key and certificate.
  lemma WalletFields(value: Bytes)
    requires |value| < 65536
    ensures BodyOk(EntryBytes(Entry(0, Item(FieldKey(6), value)))) <==> 80 <= |value| <= 256
    ensures BodyOk(EntryBytes(Entry(0, Item(FieldKey(5), value)))) <==> |value| == 32
    ensures BodyOk(EntryBytes(Entry(0, Item(FieldKey(11), value)))) <==> |value| == 48
    ensures BodyOk(EntryBytes(Entry(0, Item(FieldKey(15), value)))) <==> |value| == 33
    ensures BodyOk(EntryBytes(Entry(0, Item(FieldKey(16), value)))) <==>
            1 <= |value| <= 2048 && value[|value| - 1] == 0
  {
    hide *;
    FieldNumbers();
    WalletWidths(value);
    OneField(6, value);
    OneField(5, value);
    OneField(11, value);
    OneField(15, value);
    OneField(16, value);
  }

  lemma FieldNumbers()
    ensures NUM_FIELDS == 17 && URL_A == 13 && URL_B == 14
  {
  }

  lemma WalletWidths(value: Bytes)
    ensures FieldValueOk(6, value) <==> 80 <= |value| <= 256
    ensures FieldValueOk(5, value) <==> |value| == 32
    ensures FieldValueOk(11, value) <==> |value| == 48
    ensures FieldValueOk(15, value) <==> |value| == 33
    ensures FieldValueOk(16, value) <==> 1 <= |value| <= 2048 && value[|value| - 1] == 0
  {
  }

  lemma WalletNames()
    ensures FieldKey(6) == Ascii("blob") && FieldKey(5) == Ascii("privatekey")
    ensures FieldKey(11) == Ascii("walleterasepin") && FieldKey(15) == Ascii("pinsvrpubkey")
    ensures FieldKey(16) == Ascii("pinsvrcert")
  {
  }

  // ---------------------------------------------------------------- more entries

  // No file with more than sixteen registrations of one kind, or with one of the two URLs only, is taken.
  lemma FileLimits(body: Bytes, ns: nat)
    requires BodyOk(body) && 1 <= ns < NAMESPACES
    ensures CountOf(Parse(body).value, ns) <= 16
    ensures FieldKey(URL_A) == Ascii("pinsvrurlA") && FieldKey(URL_B) == Ascii("pinsvrurlB")
    ensures HasField(Parse(body).value, URL_A) <==> HasField(Parse(body).value, URL_B)
  {
    hide Parse, HasField;
  }

  // ---------------------------------------------------------------- a whole file

  // The file of a store in which only the display flags are set: version, digest, namespace, name, width, value.
  lemma WholeFile(digest: Bytes -> Digest)
    ensures Writable(ONE_FIELD)
    ensures var body := [0, 8, 103, 117, 105, 102, 108, 97, 103, 115, 1, 0, 1];
            Blob(ONE_FIELD, digest) == [80, 73, 74, 65, 68, 69, 83, 52] + digest(body) + body
  {
    OneFieldStore();
    AcceptsPrintable(StoreEntries(ONE_FIELD));
    hide StoreEntries, Writable;
    PrintOne(Entry(0, ONE_FIELD[0][0]));
    FlagsEntry();
  }

  lemma FlagsEntry()
    ensures Printable(Entry(0, ONE_FIELD[0][0]))
    ensures EntryBytes(Entry(0, ONE_FIELD[0][0])) == [0, 8, 103, 117, 105, 102, 108, 97, 103, 115, 1, 0, 1]
  {
    assert FieldKey(0) == [103, 117, 105, 102, 108, 97, 103, 115];
  }
}
