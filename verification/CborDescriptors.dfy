// What an output descriptor means (bcur_parse_crypto_output() of main/bcur.c), told on its item tree and in literal
// text, for the single-signature scripts and for both multisigs.
module CborDescriptors {
  import opened Options
  import opened CborTree
  import opened CborMaps
  import opened CborOutput
  import opened CborKeys
  import K = DescriptorKeys

  // ---------------------------------------------------------------- text as far as it fits

  // Text so far, or what went wrong: as the source has it, shorter than the buffer.
  function Fitting(text: string, room: nat): Result<string> {
    if |text| < room then Ok(text) else Err(TooLarge)
  }

  function Closers(n: nat): string {
    if n == 0 then "" else ")" + Closers(n - 1)
  }

  lemma {:induction false} ClosersFit(text: string, n: nat, room: nat)
    ensures Closed(Fitting(text, room), n, room) == Fitting(text + Closers(n), room)
    ensures |Closers(n)| == n
    decreases n
  {
    if n == 0 {
      assert text + Closers(0) == text;
    } else {
      ClosersFit(text + ")", n - 1, room);
      assert text + ")" + Closers(n - 1) == text + Closers(n);
      if |text| >= room {
        ClosedErr(TooLarge, n, room);
      } else if |text| + 1 >= room {
        ClosedErr(TooLarge, n - 1, room);
      }
    }
  }

  lemma ClosedWrong(e: Error, n: nat, room: nat)
    ensures Closed(Err(e), n, room) == Err(e)
  {
    ClosedErr(e, n, room);
  }

  // ---------------------------------------------------------------- the keys of a multisig

  ghost predicate DescribesAll(items: Items, ks: seq<KeySpec>, base58: Base58)
    decreases items
  {
    if items.NoItems? then ks == []
    else
      ks != [] && Describes(items.head, ks[0]) && base58(Material(ks[0])).Some? &&
      DescribesAll(items.tail, ks[1..], base58)
  }

  // Each key after a comma, in order.
  function KeysString(ks: seq<KeySpec>, base58: Base58): string
    requires forall i :: 0 <= i < |ks| ==> base58(Material(ks[i])).Some?
  {
    if ks == [] then ""
    else "," + (KeyString(ks[0], base58(Material(ks[0])).value) + KeysString(ks[1..], base58))
  }

  lemma {:induction false} AllDescribed(items: Items, ks: seq<KeySpec>, base58: Base58)
    requires DescribesAll(items, ks, base58)
    ensures Count(items) == |ks| && forall i :: 0 <= i < |ks| ==> base58(Material(ks[i])).Some?
    decreases items
  {
    if items.Items? {
      AllDescribed(items.tail, ks[1..], base58);
      forall i | 0 < i < |ks| ensures base58(Material(ks[i])).Some? {
        assert ks[i] == ks[1..][i - 1];
      }
    }
  }

  // Past a key, with its tag or without.
  lemma KeyPassed(item: Item, rest: seq<Token>, n: nat)
    requires n >= 1 && (n > 1 ==> rest != [])
    ensures var c := Cursor(Tokens(item) + rest, n);
            AdvanceOver(SkipTagIf(c, TAG_HDKEY, TAG_HDKEY_NEW).0) == Some(Cursor(rest, n - 1))
  {
    var c := Cursor(Tokens(item) + rest, n);
    OverWholeItem(item, rest, n);
    HoldsFrom(item, rest, n);
    HoldsFirst(c, item);
    KeyHead(item);
    if item.Tagged? {
      OverWholeItem(item.content, rest, n);
      assert c.toks[1..] == Tokens(item.content) + rest;
    }
    hide Tokens;
  }

  lemma MoreToCome(items: Items, rest: seq<Token>)
    ensures Count(items) > 0 ==> ItemTokens(items) + rest != []
  {
  }

  lemma {:induction false} KeysRead(items: Items, ks: seq<KeySpec>, rest: seq<Token>, text: string, room: nat,
                                    base58: Base58)
    requires DescribesAll(items, ks, base58) && |text| < room
    ensures (AllDescribed(items, ks, base58);
            KeysText(Cursor(ItemTokens(items) + rest, |ks|), |ks|, text, room, base58) ==
            Fitting(text + KeysString(ks, base58), room))
    decreases items
  {
    hide HdkeyText, Describes, KeyString, Material, Tokens, AdvanceOver, Holds;
    AllDescribed(items, ks, base58);
    if items.NoItems? {
      assert text + KeysString(ks, base58) == text;
    } else {
      var c := Cursor(ItemTokens(items) + rest, |ks|);
      var more := ItemTokens(items.tail) + rest;
      ItemInFront(items.head, items.tail);
      assert c.toks == Tokens(items.head) + more;
      HoldsFrom(items.head, more, |ks|);
      MoreToCome(items.tail, rest);
      AllDescribed(items.tail, ks[1..], base58);
      KeyPassed(items.head, more, |ks|);
      var key, t := KeyString(ks[0], base58(Material(ks[0])).value), text + ",";
      assert text + KeysString(ks, base58) == t + key + KeysString(ks[1..], base58);
      if |t| < room {
        KeyReads(c, items.head, ks[0], room - |t|, base58);
        if |t| + |key| < room {
          KeysRead(items.tail, ks[1..], rest, t + key, room, base58);
        }
      }
    }
  }

  // ---------------------------------------------------------------- multisig

  // A threshold under key 1 and the keys under key 2.
  ghost predicate MultiIs(m: Item, threshold: nat, keys: Items) {
    Map(m) && Get(m, 1) == Some(UInt(threshold)) && Get(m, 2) == Some(List(keys)) && threshold < 0x1_0000_0000
  }

  // The opening for the tag, the threshold, and the keys.
  function MultiString(tag: nat, threshold: nat, ks: seq<KeySpec>, base58: Base58): string
    requires forall i :: 0 <= i < |ks| ==> base58(Material(ks[i])).Some?
  {
    (if tag == 407 then "sortedmulti(" else "multi(") + (K.Dec(threshold) + KeysString(ks, base58))
  }

  lemma MultiReads(c: Cursor, tag: nat, m: Item, threshold: nat, keys: Items, ks: seq<KeySpec>, text: string, room: nat,
                   base58: Base58)
    requires Holds(c, Tagged(tag, m)) && (tag == 406 || tag == 407) && MultiIs(m, threshold, keys)
    requires DescribesAll(keys, ks, base58)
    ensures (AllDescribed(keys, ks, base58);
            MultiText(c, text, room, base58) ==
            if threshold == 0 || ks == [] then Err(Invalid)
            else if |ks| > 15 then Err(TooMany)
            else if threshold > |ks| then Err(Invalid)
            else Fitting(text + MultiString(tag, threshold, ks, base58), room))
  {
    hide Holds, Find, KeysUnique, Get, GetUint32, Map, KeysText, Tokens, ItemTokens, Count, K.Dec, KeysString;
    AllDescribed(keys, ks, base58);
    SkipsOne(c, tag, m);
    var map_ := SkipOneTag(c).value.0;
    Looked(map_, m, 1);
    Looked(map_, m, 2);
    NumberRead(Find(map_, 1).value, threshold);
    var at := Find(map_, 2).value;
    var rest := ArrayRead(at, keys);
    hide First, Enter, IsArray;
    if 1 <= threshold <= |ks| <= 15 {
      var word := (if tag == TAG_SORTEDMULTI then "sortedmulti" else "multi") + ("(" + K.Dec(threshold));
      Wording(text, tag, threshold, KeysString(ks, base58));
      if |text| + |word| < room {
        KeysRead(keys, ks, rest, text + word, room, base58);
      }
    }
  }

  lemma Wording(text: string, tag: nat, threshold: nat, more: string)
    ensures text + ((if tag == 407 then "sortedmulti(" else "multi(") + (K.Dec(threshold) + more)) ==
            text + ((if tag == 407 then "sortedmulti" else "multi") + ("(" + K.Dec(threshold))) + more
  {
    hide K.Dec;
    var name := if tag == 407 then "sortedmulti" else "multi";
    assert name + "(" == if tag == 407 then "sortedmulti(" else "multi(";
    assert text + (name + "(" + (K.Dec(threshold) + more)) == text + (name + ("(" + K.Dec(threshold))) + more;
  }

  lemma ArrayRead(c: Cursor, items: Items) returns (rest: seq<Token>)
    requires Holds(c, List(items))
    ensures IsArray(c) && c.toks[0].len == Count(items)
    ensures Count(items) > 0 ==> Enter(c) == Some(Cursor(ItemTokens(items) + rest, Count(items)))
  {
    hide Holds, Tokens, ItemTokens, Count;
    rest := HoldsSplit(c, List(items));
    ListHead(items);
    assert c.toks == [ArrayT(Count(items))] + (ItemTokens(items) + rest);
    assert c.toks[1..] == ItemTokens(items) + rest;
    MoreToCome(items, rest);
  }

  lemma SkipsOne(c: Cursor, tag: nat, content: Item)
    requires Holds(c, Tagged(tag, content))
    ensures SkipOneTag(c).Some? && SkipOneTag(c).value.1 == tag && Holds(SkipOneTag(c).value.0, content)
  {
    hide Holds;
    HoldsUntagged(c, tag, content);
  }

  // ---------------------------------------------------------------- whole outputs

  // 'crypto-output' may be tagged so, under either number.
  ghost predicate OutputOf(item: Item, inner: Item) {
    item == inner || item == Tagged(308, inner) || item == Tagged(40308, inner)
  }

  // Where the script's own tag stands, and whether it is inside sh().
  lemma OuterRead(c: Cursor, item: Item, sh: bool, tag: nat, content: Item, room: nat)
    requires Holds(c, item) && OutputOf(item, if sh then Tagged(400, Tagged(tag, content)) else Tagged(tag, content))
    requires tag != 308 && tag != 40308 && tag != 400
    ensures var (inner, isSh) := SkipTagIf(SkipTagIf(c, TAG_OUTPUT, TAG_OUTPUT_NEW).0, TAG_SH, TAG_SH);
            isSh == sh && Holds(inner, Tagged(tag, content))
  {
    hide Holds;
    HoldsUntag(c, item, TAG_OUTPUT, TAG_OUTPUT_NEW);
    var script := SkipTagIf(c, TAG_OUTPUT, TAG_OUTPUT_NEW).0;
    if sh {
      HoldsUntagged(script, 400, Tagged(tag, content));
    } else {
      HoldsUntagged(script, tag, content);
    }
  }

  // wsh() and sh(wsh()) over either multisig of up to fifteen keys: exactly this text, if it fits, and exactly these
  // refusals.
  lemma MultisigReads(c: Cursor, item: Item, sh: bool, tag: nat, m: Item, threshold: nat, keys: Items,
                      ks: seq<KeySpec>, room: nat, base58: Base58)
    requires Holds(c, item) && MultiIs(m, threshold, keys) && DescribesAll(keys, ks, base58)
    requires var wsh := Tagged(401, Tagged(tag, m));
             OutputOf(item, if sh then Tagged(400, wsh) else wsh) && (tag == 406 || tag == 407)
    requires room > 512
    ensures (AllDescribed(keys, ks, base58);
            OutputText(c, room, base58) ==
            if threshold == 0 || ks == [] then Err(Invalid)
            else if |ks| > 15 then Err(TooMany)
            else if threshold > |ks| then Err(Invalid)
            else
              var inside := MultiString(tag, threshold, ks, base58);
              Fitting(if sh then "sh(wsh(" + (inside + ")))") else "wsh(" + (inside + "))"), room))
  {
    hide Holds, MultiText, Closed, MultiString, Fitting;
    AllDescribed(keys, ks, base58);
    OuterRead(c, item, sh, 401, Tagged(tag, m), room);
    var inner := SkipTagIf(SkipTagIf(c, TAG_OUTPUT, TAG_OUTPUT_NEW).0, TAG_SH, TAG_SH).0;
    SkipsOne(inner, 401, Tagged(tag, m));
    var t := (if sh then "" + "sh(" else "") + "wsh(";
    assert t == if sh then "sh(wsh(" else "wsh(";
    MultiReads(SkipOneTag(inner).value.0, tag, m, threshold, keys, ks, t, room, base58);
    var inside, n := MultiString(tag, threshold, ks, base58), if sh then 3 else 2;
    ClosersAre();
    ClosersFit(t + inside, n, room);
    ClosedWrong(Invalid, n, room);
    ClosedWrong(TooMany, n, room);
    assert t + inside + Closers(n) == if sh then "sh(wsh(" + (inside + ")))") else "wsh(" + (inside + "))");
  }

  lemma ClosersAre()
    ensures Closers(1) == ")" && Closers(2) == "))" && Closers(3) == ")))"
  {
  }

  // pkh(), wpkh() and either of them inside sh().
  lemma SingleReads(c: Cursor, item: Item, sh: bool, tag: nat, keyItem: Item, k: KeySpec, room: nat, base58: Base58)
    requires Holds(c, item) && Describes(keyItem, k) && base58(Material(k)).Some? && (tag == 403 || tag == 404)
    requires OutputOf(item, if sh then Tagged(400, Tagged(tag, keyItem)) else Tagged(tag, keyItem)) && room > 512
    ensures OutputText(c, room, base58) ==
            var inside := (if tag == 404 then "wpkh(" else "pkh(") + (KeyString(k, base58(Material(k)).value) + ")");
            Fitting(if sh then "sh(" + (inside + ")") else inside, room)
  {
    hide Holds, HdkeyText, Closed, KeyString, Material, Describes;
    OuterRead(c, item, sh, tag, keyItem, room);
    var inner := SkipTagIf(SkipTagIf(c, TAG_OUTPUT, TAG_OUTPUT_NEW).0, TAG_SH, TAG_SH).0;
    SkipsOne(inner, tag, keyItem);
    var open := if tag == 404 then "wpkh(" else "pkh(";
    var t, key := (if sh then "" + "sh(" else "") + open, KeyString(k, base58(Material(k)).value);
    KeyReads(SkipOneTag(inner).value.0, keyItem, k, room - |t|, base58);
    ClosersAre();
    ClosersFit(t + key, if sh then 2 else 1, room);
    var inside := open + (key + ")");
    assert t + key + Closers(if sh then 2 else 1) == if sh then "sh(" + (inside + ")") else inside;
  }

  // Any other script is refused.
  lemma OthersRefused(c: Cursor, item: Item, sh: bool, tag: nat, content: Item, room: nat, base58: Base58)
    requires Holds(c, item) && OutputOf(item, if sh then Tagged(400, Tagged(tag, content)) else Tagged(tag, content))
    requires tag !in {308, 40308, 400, 401, 403, 404} && room > 512
    ensures OutputText(c, room, base58) == Err(Unsupported)
  {
    hide Holds, HdkeyText, MultiText, Closed;
    OuterRead(c, item, sh, tag, content, room);
    SkipsOne(SkipTagIf(SkipTagIf(c, TAG_OUTPUT, TAG_OUTPUT_NEW).0, TAG_SH, TAG_SH).0, tag, content);
  }
}
