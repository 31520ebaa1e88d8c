// What main/bcur.c promises about output descriptors: text that is accepted closes every bracket it opens, and the
// device's own single-signature outputs come back with the same script, path, key and network.
module CborLaws {
  import opened Options
  import opened CborTree
  import opened CborMaps
  import opened CborOutput
  import opened CborEncode
  import K = DescriptorKeys

  // ---------------------------------------------------------------- balanced brackets

  ghost predicate BareKeys(base58: Base58) {
    forall d :: base58(d).Some? ==> Bare(base58(d).value)
  }

  lemma DecBare(n: nat)
    ensures Bare(K.Dec(n))
  {
    hide K.Dec;
    assert forall i :: 0 <= i < |K.Dec(n)| ==> K.IsDigit(K.Dec(n)[i]);
  }

  lemma {:induction false} PathBare(it: Cursor, p: Path)
    requires Bare(p.text) && PathFrom(it, p).Some?
    ensures Bare(PathFrom(it, p).value.text)
    decreases |it.toks|
  {
    if !AtEnd(it) {
      hide NextComponent, K.Dec;
      var (index, hardened, next) := NextComponent(it).value;
      DecBare(index);
      PathBare(next, Path(p.text + Component(index, hardened, p.count == 0), p.count + 1,
                          if hardened then index + HARDENED else index));
    }
  }

  lemma ChildBare(a: nat, b: nat)
    ensures Bare(K.ChildText(a, b))
  {
    hide K.Dec;
    DecBare(a);
    DecBare(b);
    var t := ";" + (K.Dec(b) + ">/*");
    assert Bare(t);
    assert Bare(K.Dec(a) + t);
  }

  lemma ChildrenBare(key: Cursor)
    requires ReadChildren(key).Some?
    ensures Bare(ReadChildren(key).value)
  {
    hide Find, KeysUnique, Advance, Enter, BranchPair, K.ChildText;
    if Find(key, 7).Some? {
      var path := SkipTagIf(Find(key, 7).value, TAG_KEYPATH, TAG_KEYPATH_NEW).0;
      var (a, b) := BranchPair(Enter(Enter(Find(path, 1).value).value).value).value;
      ChildBare(a, b);
    }
  }

  lemma OriginBare(key: Cursor)
    requires ReadOrigin(key).Ok?
    ensures Bare(ReadOrigin(key).value.path.text)
  {
    hide Find, KeysUnique, PathFrom, Enter;
    var origin := SkipTagIf(Find(key, 6).value, TAG_KEYPATH, TAG_KEYPATH_NEW).0;
    PathBare(Enter(Find(origin, 1).value).value, Path("", 0, 0));
  }

  lemma KeyTextBare(o: Origin, xpub: string, child: string)
    requires Bare(o.path.text) && Bare(xpub) && Bare(child)
    ensures Bare(KeyText(o, xpub, child))
  {
    var h := Hex(o.fingerprint, 8);
    assert Bare(h);
    hide Hex;
    var a := "]" + (xpub + child);
    assert Bare(a);
    var b := (if o.path.text != "" then "/" + o.path.text else "") + a;
    assert Bare(b);
    assert Bare(h + b);
  }

  lemma HdkeyBare(value: Cursor, room: nat, base58: Base58)
    requires BareKeys(base58) && HdkeyText(value, room, base58).Ok?
    ensures Bare(HdkeyText(value, room, base58).value)
  {
    hide Find, KeysUnique, Network, ReadOrigin, ReadChildren, KeyText, Bare;
    var key := SkipTagIf(value, TAG_HDKEY, TAG_HDKEY_NEW).0;
    OriginBare(key);
    ChildrenBare(key);
    var o := ReadOrigin(key).value;
    var parent := if Find(key, 8).Some? then GetUint32(Find(key, 8).value).value else 0;
    var d := KeyData(Network(key).value, o.depth, if o.depth != 0 then o.path.last else 0,
                     GetBytes(Find(key, 4).value, 32).value, GetBytes(Find(key, 3).value, 33).value, parent);
    assert Bare(base58(d).value);
    KeyTextBare(o, base58(d).value, ReadChildren(key).value);
  }

  lemma {:induction false} KeysDepth(c: Cursor, n: nat, text: string, room: nat, base58: Base58)
    requires BareKeys(base58) && KeysText(c, n, text, room, base58).Ok?
    ensures Depth(KeysText(c, n, text, room, base58).value) == Depth(text)
    decreases n
  {
    hide HdkeyText, AdvanceOver, Depth, BareKeys;
    if n > 0 {
      var t := Append(text, ",", room).value;
      assert Bare(",");
      BareKeeps(text, ",");
      HdkeyBare(c, room - |t|, base58);
      var key := HdkeyText(c, room - |t|, base58).value;
      BareKeeps(t, key);
      KeysDepth(AdvanceOver(SkipTagIf(c, TAG_HDKEY, TAG_HDKEY_NEW).0).value, n - 1, t + key, room, base58);
    }
  }

  lemma MultiDepth(value: Cursor, text: string, room: nat, base58: Base58)
    requires BareKeys(base58) && MultiText(value, text, room, base58).Ok? && Depth(text) >= 0
    ensures Depth(MultiText(value, text, room, base58).value) == Depth(text) + 1
  {
    hide Find, KeysUnique, KeysText, Depth, BareKeys, K.Dec;
    var (map_, tag) := SkipOneTag(value).value;
    var threshold, keys := GetUint32(Find(map_, 1).value).value, Find(map_, 2).value;
    var name := if tag == TAG_SORTEDMULTI then "sortedmulti" else "multi";
    var word := name + "(";
    assert word[..|word| - 1] == name;
    OpenDeepens(text, word);
    DecBare(threshold);
    BareKeeps(text + word, K.Dec(threshold));
    var t := text + (name + ("(" + K.Dec(threshold)));
    assert t == text + word + K.Dec(threshold);
    KeysDepth(Enter(keys).value, keys.toks[0].len, t, room, base58);
  }

  lemma EmptyDepth()
    ensures Depth("") == 0
  {
  }

  // Every accepted descriptor, single-signature or multisig, closes exactly the brackets it opens.
  lemma OutputBalanced(value: Cursor, room: nat, base58: Base58)
    requires BareKeys(base58) && OutputText(value, room, base58).Ok?
    ensures Depth(OutputText(value, room, base58).value) == 0
  {
    hide HdkeyText, MultiText, Closed, Depth, BareKeys;
    var (inner, sh) := SkipTagIf(SkipTagIf(value, TAG_OUTPUT, TAG_OUTPUT_NEW).0, TAG_SH, TAG_SH);
    var text := if sh then "" + "sh(" else "";
    EmptyDepth();
    Words();
    OpenDeepens("", "sh(");
    var depth := if sh then 1 else 0;
    var (content, tag) := SkipOneTag(inner).value;
    if tag == TAG_WSH {
      OpenDeepens(text, "wsh(");
      var t := text + "wsh(";
      if MultiText(content, t, room, base58).Err? {
        ClosedErr(MultiText(content, t, room, base58).error, depth + 2, room);
      } else {
        MultiDepth(content, t, room, base58);
        ClosedDepth(MultiText(content, t, room, base58).value, depth + 2, room);
      }
    } else {
      var word := if tag == TAG_WPKH then "wpkh(" else "pkh(";
      OpenDeepens(text, word);
      var t := text + word;
      HdkeyBare(content, room - |t|, base58);
      var key := HdkeyText(content, room - |t|, base58).value;
      BareKeeps(t, key);
      ClosedDepth(t + key, depth + 1, room);
    }
  }

  lemma Words()
    ensures Opens("sh(") && Opens("wsh(") && Opens("wpkh(") && Opens("pkh(")
  {
  }

  // ---------------------------------------------------------------- reading back what the device writes

  // The path as text, '48h/0h/0h/2h'.
  function PathText(path: seq<nat>, n: nat): string
    requires n <= |path|
  {
    if n == 0 then "" else PathText(path, n - 1) + Component(Unharden(path[n - 1]), Hardened(path[n - 1]), n == 1)
  }

  lemma ComponentFits(index: nat, hardened: bool, first: bool)
    requires index <= K.MAX_CHILD_INDEX
    ensures 1 <= |Component(index, hardened, first)| <= 12
  {
    K.PowTenMonotone(10, 10);
    K.DecLength(index, 10);
    hide K.Dec;
  }

  lemma {:induction false} PathTextFits(path: seq<nat>, n: nat)
    requires n <= |path| && forall i :: 0 <= i < |path| ==> path[i] <= UINT32_MAX
    ensures |PathText(path, n)| <= 12 * n && (n > 0 ==> PathText(path, n) != "")
  {
    if n > 0 {
      hide Component;
      PathTextFits(path, n - 1);
      ComponentFits(Unharden(path[n - 1]), Hardened(path[n - 1]), n == 1);
    }
  }

  function LastOf(path: seq<nat>, n: nat): nat
    requires n <= |path|
  {
    if n == 0 then 0 else path[n - 1]
  }

  // At component i of the encoded path.
  function AtComponent(path: seq<nat>, i: nat, rest: seq<Token>): Cursor
    requires i <= |path|
  {
    Cursor(ItemTokens(PathItems(path, i)) + rest, 2 * (|path| - i))
  }

  lemma ComponentReads(path: seq<nat>, i: nat, rest: seq<Token>)
    requires i < |path| && path[i] <= UINT32_MAX
    ensures NextComponent(AtComponent(path, i, rest)) ==
            Some((Unharden(path[i]), Hardened(path[i]), AtComponent(path, i + 1, rest)))
  {
    var c := AtComponent(path, i, rest);
    PathStep(path, i);
    if i + 1 < |path| {
      PathStep(path, i + 1);
    }
    hide ItemTokens, PathItems;
    var more := ItemTokens(PathItems(path, i + 1)) + rest;
    var number, flag := UIntT(Unharden(path[i])), BoolT(Hardened(path[i]));
    assert c.toks == [number] + ([flag] + more);
    assert c.toks[1..] == [flag] + more && ([flag] + more)[1..] == more;
  }

  lemma {:induction false} PathReads(path: seq<nat>, i: nat, rest: seq<Token>)
    requires i <= |path| && i <= MAX_PATH_LEN && forall k :: 0 <= k < |path| ==> path[k] <= UINT32_MAX
    ensures PathFrom(AtComponent(path, i, rest), Path(PathText(path, i), i, LastOf(path, i))) ==
            if |path| <= MAX_PATH_LEN then Some(Path(PathText(path, |path|), |path|, LastOf(path, |path|))) else None
    decreases |path| - i
  {
    hide NextComponent, Component, ItemTokens, PathItems;
    if i < |path| {
      ComponentReads(path, i, rest);
      PathTextFits(path, i);
      ComponentLength(path, i);
      if i < MAX_PATH_LEN {
        PathReads(path, i + 1, rest);
      }
    }
  }

  lemma ComponentLength(path: seq<nat>, i: nat)
    requires i < |path| && path[i] <= UINT32_MAX
    ensures |Component(Unharden(path[i]), Hardened(path[i]), i == 0)| <= 12
  {
    ComponentFits(Unharden(path[i]), Hardened(path[i]), i == 0);
  }

  lemma OriginPathReads(c: Cursor, path: seq<nat>)
    requires Holds(c, List(PathItems(path, 0))) && forall k :: 0 <= k < |path| ==> path[k] <= UINT32_MAX
    ensures OriginPath(c) ==
            if |path| <= MAX_PATH_LEN then Some(Path(PathText(path, |path|), |path|, LastOf(path, |path|))) else None
  {
    hide PathFrom, ItemTokens, PathItems, Tokens, Holds, Count;
    var rest := HoldsSplit(c, List(PathItems(path, 0)));
    PathCount(path, 0);
    ListTokens(PathItems(path, 0));
    if |path| > 0 {
      PathStep(path, 0);
    }
    assert c.toks == [ArrayT(2 * |path|)] + (ItemTokens(PathItems(path, 0)) + rest);
    assert c.toks[1..] == ItemTokens(PathItems(path, 0)) + rest;
    assert Enter(c) == Some(AtComponent(path, 0, rest));
    PathReads(path, 0, rest);
  }

  lemma ListTokens(items: Items)
    ensures Tokens(List(items)) == [ArrayT(Count(items))] + ItemTokens(items)
  {
  }

  // One pair in front: what is found, and which keys are taken.
  lemma PairInFront(k: nat, v: Item, rest: Pairs, seen: set<nat>)
    requires k < 64 && k !in seen && PairsOk(rest, seen + {k})
    ensures PairsOk(Pairs(UInt(k), v, rest), seen) && UIntKeys(Pairs(UInt(k), v, rest)) && UIntKeys(rest)
    ensures forall x :: FindPair(Pairs(UInt(k), v, rest), x) == if x == k then Some(v) else FindPair(rest, x)
  {
    OkKeys(rest, seen + {k});
  }

  lemma NoneInFront(seen: set<nat>)
    ensures PairsOk(NoPairs, seen) && UIntKeys(NoPairs) && forall x :: FindPair(NoPairs, x) == None
  {
  }

  // The fields of the encoded key, and that its maps pass the key check.
  lemma KeyFields(w: Wallet)
    ensures var p := KeyPairs(w);
            && PairsOk(p, {}) && UIntKeys(p)
            && FindPair(p, 2) == None && FindPair(p, 3) == Some(Bytes(w.key)) && FindPair(p, 4) == Some(Bytes(w.chain))
            && FindPair(p, 5) == (if w.test then Some(Tagged(TAG_USEINFO, Dict(UseInfo()))) else None)
            && FindPair(p, 6) == Some(Tagged(TAG_KEYPATH, Dict(OriginPairs(w))))
            && FindPair(p, 7) == None && FindPair(p, 8) == Some(UInt(w.parent))
  {
    hide UseInfo, OriginPairs, PairsOk, UIntKeys, FindPair;
    var tail := KeyTail(w);
    var info := Tagged(TAG_USEINFO, Dict(UseInfo()));
    var rest := if w.test then Pairs(UInt(5), info, tail) else tail;
    var s4: set<nat> := {} + {3} + {4};
    var s5 := if w.test then s4 + {5} else s4;
    NoneInFront(s5 + {6} + {8});
    PairInFront(8, UInt(w.parent), NoPairs, s5 + {6});
    PairInFront(6, Tagged(TAG_KEYPATH, Dict(OriginPairs(w))), Pairs(UInt(8), UInt(w.parent), NoPairs), s5);
    if w.test {
      PairInFront(5, info, tail, s4);
    }
    PairInFront(4, Bytes(w.chain), rest, {} + {3});
    PairInFront(3, Bytes(w.key), Pairs(UInt(4), Bytes(w.chain), rest), {});
  }

  lemma OriginFields(w: Wallet)
    ensures var p := OriginPairs(w);
            && PairsOk(p, {}) && UIntKeys(p) && FindPair(p, 1) == Some(List(PathItems(w.path, 0)))
            && FindPair(p, 2) == Some(UInt(w.fingerprint)) && FindPair(p, 3) == Some(UInt(|w.path|))
  {
    hide PathItems, PairsOk, UIntKeys, FindPair;
    var third := Pairs(UInt(3), UInt(|w.path|), NoPairs);
    var second := Pairs(UInt(2), UInt(w.fingerprint), third);
    NoneInFront({} + {1} + {2} + {3});
    PairInFront(3, UInt(|w.path|), NoPairs, {} + {1} + {2});
    PairInFront(2, UInt(w.fingerprint), third, {} + {1});
    PairInFront(1, List(PathItems(w.path, 0)), second, {});
  }

  lemma InfoFields()
    ensures var p := UseInfo();
            PairsOk(p, {}) && UIntKeys(p) && FindPair(p, 1) == Some(UInt(0)) && FindPair(p, 2) == Some(UInt(1))
  {
    hide PairsOk, UIntKeys, FindPair;
    NoneInFront({} + {1} + {2});
    PairInFront(2, UInt(1), NoPairs, {} + {1});
    PairInFront(1, UInt(0), Pairs(UInt(2), UInt(1), NoPairs), {});
  }

  lemma HoldsUInt(c: Cursor, v: nat)
    requires Holds(c, UInt(v)) && v <= UINT32_MAX
    ensures GetUint32(c) == Some(v)
  {
    HoldsFirst(c, UInt(v));
  }

  lemma HoldsBytes(c: Cursor, b: seq<nat>)
    requires Holds(c, Bytes(b))
    ensures GetBytes(c, |b|) == Some(b)
  {
    HoldsFirst(c, Bytes(b));
  }

  // A tag in front of the item is stepped over, and a missing one is not missed.
  lemma SkipsTag(c: Cursor, tag: nat, content: Item, other: nat)
    requires Holds(c, Tagged(tag, content))
    ensures SkipTagIf(c, tag, other).1 && Holds(SkipTagIf(c, tag, other).0, content)
  {
    hide Holds;
    HoldsUntagged(c, tag, content);
  }

  lemma LeavesTag(c: Cursor, tag: nat, content: Item, a: nat, b: nat)
    requires Holds(c, Tagged(tag, content)) && tag != a && tag != b
    ensures SkipTagIf(c, a, b) == (c, false)
    ensures SkipOneTag(c).Some? && SkipOneTag(c).value.1 == tag && Holds(SkipOneTag(c).value.0, content)
  {
    hide Holds;
    HoldsUntagged(c, tag, content);
  }

  lemma NetworkReads(key: Cursor, w: Wallet)
    requires Holds(key, Dict(KeyPairs(w)))
    ensures Network(key) == Some(w.test)
  {
    hide Holds, Find, KeysUnique, KeyPairs, UseInfo, GetUint32;
    KeyFields(w);
    FoundInMap(key, KeyPairs(w), 5);
    if w.test {
      SkipsTag(Find(key, 5).value, TAG_USEINFO, Dict(UseInfo()), TAG_USEINFO_NEW);
      var info := SkipTagIf(Find(key, 5).value, TAG_USEINFO, TAG_USEINFO_NEW).0;
      InfoFields();
      CheckedMap(info, UseInfo());
      FoundInMap(info, UseInfo(), 1);
      FoundInMap(info, UseInfo(), 2);
      HoldsUInt(Find(info, 1).value, 0);
      HoldsUInt(Find(info, 2).value, 1);
    }
  }

  function OriginOf(w: Wallet): Origin {
    Origin(w.fingerprint, Path(PathText(w.path, |w.path|), |w.path|, LastOf(w.path, |w.path|)), |w.path|)
  }

  lemma OriginReads(key: Cursor, w: Wallet)
    requires Holds(key, Dict(KeyPairs(w))) && WalletOk(w)
    ensures ReadOrigin(key) == if |w.path| <= MAX_PATH_LEN then Ok(OriginOf(w)) else Err(Unsupported)
  {
    hide Holds, Find, KeysUnique, KeyPairs, OriginPairs, GetUint32, OriginPath, PathText;
    KeyFields(w);
    FoundInMap(key, KeyPairs(w), 6);
    SkipsTag(Find(key, 6).value, TAG_KEYPATH, Dict(OriginPairs(w)), TAG_KEYPATH_NEW);
    var origin := SkipTagIf(Find(key, 6).value, TAG_KEYPATH, TAG_KEYPATH_NEW).0;
    OriginFields(w);
    CheckedMap(origin, OriginPairs(w));
    FoundInMap(origin, OriginPairs(w), 1);
    FoundInMap(origin, OriginPairs(w), 2);
    FoundInMap(origin, OriginPairs(w), 3);
    OriginPathReads(Find(origin, 1).value, w.path);
    HoldsUInt(Find(origin, 2).value, w.fingerprint);
    HoldsUInt(Find(origin, 3).value, |w.path|);
  }

  // What the reader rebuilds the key from.
  function KeyDataOf(w: Wallet): KeyData {
    KeyData(w.test, |w.path|, LastOf(w.path, |w.path|), w.chain, w.key, w.parent)
  }

  ghost predicate KeyFits(w: Wallet, base58: Base58) {
    base58(KeyDataOf(w)).Some? && |base58(KeyDataOf(w)).value| <= 112
  }

  lemma KeyTextFits(w: Wallet, xpub: string)
    requires WalletOk(w) && |xpub| <= 112 && |w.path| <= MAX_PATH_LEN
    ensures |KeyText(OriginOf(w), xpub, "/<0;1>/*")| <= 330
  {
    hide PathText, Hex;
    PathTextFits(w.path, |w.path|);
  }

  lemma HdkeyReads(c: Cursor, w: Wallet, room: nat, base58: Base58)
    requires Holds(c, Tagged(TAG_HDKEY, Dict(KeyPairs(w)))) && WalletOk(w) && KeyFits(w, base58) && room > 340
    ensures HdkeyText(c, room, base58) ==
            if |w.path| <= MAX_PATH_LEN then Ok(KeyText(OriginOf(w), base58(KeyDataOf(w)).value, "/<0;1>/*"))
            else Err(Unsupported)
  {
    hide Holds, Find, KeysUnique, KeyPairs, GetUint32, GetBytes, Network, ReadOrigin, KeyText, PathText;
    SkipsTag(c, TAG_HDKEY, Dict(KeyPairs(w)), TAG_HDKEY_NEW);
    var key := SkipTagIf(c, TAG_HDKEY, TAG_HDKEY_NEW).0;
    KeyFields(w);
    CheckedMap(key, KeyPairs(w));
    FoundInMap(key, KeyPairs(w), 2);
    FoundInMap(key, KeyPairs(w), 3);
    FoundInMap(key, KeyPairs(w), 4);
    FoundInMap(key, KeyPairs(w), 7);
    FoundInMap(key, KeyPairs(w), 8);
    HoldsBytes(Find(key, 3).value, w.key);
    HoldsBytes(Find(key, 4).value, w.chain);
    HoldsUInt(Find(key, 8).value, w.parent);
    NetworkReads(key, w);
    OriginReads(key, w);
    if |w.path| <= MAX_PATH_LEN {
      KeyTextFits(w, base58(KeyDataOf(w)).value);
    }
  }

  function Opening(v: Variant): string {
    match v
    case P2PKH => "pkh("
    case P2WPKH => "wpkh("
    case P2WPKH_P2SH => "sh(wpkh("
  }

  function Closing(v: Variant): string {
    if v.P2WPKH_P2SH? then "))" else ")"
  }

  lemma CloseText(text: string, closers: nat, room: nat)
    requires |text| + 2 < room && 1 <= closers <= 2
    ensures Closed(Ok(text), closers, room) == Ok(text + (if closers == 2 then "))" else ")"))
  {
    assert Closed(Ok(text + ")"), 0, room) == Ok(text + ")");
    if closers == 2 {
      assert Closed(Ok(text + ")" + ")"), 0, room) == Ok(text + ")" + ")");
      assert Closed(Ok(text + ")"), 1, room) == Ok(text + ")" + ")");
      assert text + ")" + ")" == text + "))";
    }
  }

  // For any path and network, what the device encodes is read back to text with the same script wrapping,
  // fingerprint, hardened path, and a key rebuilt from the same material; a path of more than 16 steps is refused.
  lemma EncodedOutputReadsBack(c: Cursor, v: Variant, w: Wallet, room: nat, base58: Base58)
    requires Holds(c, OutputItem(v, w)) && WalletOk(w) && KeyFits(w, base58) && room > 512
    ensures OutputText(c, room, base58) ==
            if |w.path| <= MAX_PATH_LEN
            then Ok(Opening(v) + (KeyText(OriginOf(w), base58(KeyDataOf(w)).value, "/<0;1>/*") + Closing(v)))
            else Err(Unsupported)
  {
    hide Holds, HdkeyText, KeyPairs, KeyText, Closed, OriginOf;
    var key := Tagged(TAG_HDKEY, Dict(KeyPairs(w)));
    var tag := if v.P2PKH? then TAG_PKH else TAG_WPKH;
    var open := if v.P2PKH? then "pkh(" else "wpkh(";
    var inner: Cursor;
    if v.P2WPKH_P2SH? {
      LeavesTag(c, TAG_SH, Tagged(TAG_WPKH, key), TAG_OUTPUT, TAG_OUTPUT_NEW);
      SkipsTag(c, TAG_SH, Tagged(TAG_WPKH, key), TAG_SH);
      inner := SkipTagIf(c, TAG_SH, TAG_SH).0;
    } else {
      LeavesTag(c, tag, key, TAG_OUTPUT, TAG_OUTPUT_NEW);
      LeavesTag(c, tag, key, TAG_SH, TAG_SH);
      inner := c;
    }
    LeavesTag(inner, tag, key, TAG_SH, TAG_SH);
    var content := SkipOneTag(inner).value.0;
    var t := (if v.P2WPKH_P2SH? then "" + "sh(" else "") + open;
    assert t == Opening(v);
    HdkeyReads(content, w, room - |t|, base58);
    if |w.path| <= MAX_PATH_LEN {
      KeyTextFits(w, base58(KeyDataOf(w)).value);
      var text := KeyText(OriginOf(w), base58(KeyDataOf(w)).value, "/<0;1>/*");
      CloseText(t + text, if v.P2WPKH_P2SH? then 2 else 1, room);
      assert t + text + Closing(v) == Opening(v) + (text + Closing(v));
    }
  }
}
