// The device's own encoder in main/bcur.c (encode_script_variant_tag(), encode_hdkey()) against its reader: what it
// writes for a single-signature output is read back, and every accepted text has balanced brackets.
module CborEncode {
  import opened CborTree
  import opened CborMaps
  import opened CborOutput

  datatype Variant = P2PKH | P2WPKH | P2WPKH_P2SH

  // The derived public key, and the wallet it belongs to.
  datatype Wallet = Wallet(test: bool, fingerprint: nat, path: seq<nat>, key: seq<nat>, chain: seq<nat>, parent: nat)

  ghost predicate WalletOk(w: Wallet) {
    && 1 <= w.fingerprint <= UINT32_MAX && w.parent <= UINT32_MAX && |w.key| == 33 && |w.chain| == 32
    && 1 <= |w.path| <= 255 && forall i :: 0 <= i < |w.path| ==> w.path[i] <= UINT32_MAX
  }

  predicate Hardened(n: nat) {
    n >= HARDENED
  }

  function Unharden(n: nat): nat {
    if n >= HARDENED then n - HARDENED else n
  }

  // ---------------------------------------------------------------- what is encoded

  function PathItems(path: seq<nat>, i: nat): Items
    requires i <= |path|
    decreases |path| - i
  {
    if i == |path| then NoItems
    else Items(UInt(Unharden(path[i])), Items(Bool(Hardened(path[i])), PathItems(path, i + 1)))
  }

  function UseInfo(): Pairs {
    Pairs(UInt(1), UInt(0), Pairs(UInt(2), UInt(1), NoPairs))
  }

  function OriginPairs(w: Wallet): Pairs {
    Pairs(UInt(1), List(PathItems(w.path, 0)),
          Pairs(UInt(2), UInt(w.fingerprint), Pairs(UInt(3), UInt(|w.path|), NoPairs)))
  }

  function KeyTail(w: Wallet): Pairs {
    Pairs(UInt(6), Tagged(TAG_KEYPATH, Dict(OriginPairs(w))), Pairs(UInt(8), UInt(w.parent), NoPairs))
  }

  function KeyPairs(w: Wallet): Pairs {
    Pairs(UInt(3), Bytes(w.key), Pairs(UInt(4), Bytes(w.chain),
      if w.test then Pairs(UInt(5), Tagged(TAG_USEINFO, Dict(UseInfo())), KeyTail(w)) else KeyTail(w)))
  }

  function OutputItem(v: Variant, w: Wallet): Item {
    var key := Tagged(TAG_HDKEY, Dict(KeyPairs(w)));
    match v
    case P2PKH => Tagged(TAG_PKH, key)
    case P2WPKH => Tagged(TAG_WPKH, key)
    case P2WPKH_P2SH => Tagged(TAG_SH, Tagged(TAG_WPKH, key))
  }

  // ---------------------------------------------------------------- the encoder

  class Encoder {
    var out: seq<Token>

    constructor ()
      ensures out == []
    {
      out := [];
    }

    method Put(t: Token)
      modifies this
      ensures out == old(out) + [t]
    {
      out := out + [t];
    }

    method EncodeScriptVariantTag(v: Variant)
      modifies this
      ensures out == old(out) + (match v
                case P2PKH => [TagT(TAG_PKH)]
                case P2WPKH => [TagT(TAG_WPKH)]
                case P2WPKH_P2SH => [TagT(TAG_SH), TagT(TAG_WPKH)])
    {
      match v
      case P2PKH => Put(TagT(403));
      case P2WPKH => Put(TagT(404));
      case P2WPKH_P2SH =>
        Put(TagT(400));
        Put(TagT(404));
    }

    // The path array: a number and a flag for each component.
    method EncodePath(path: seq<nat>)
      modifies this
      ensures out == old(out) + Tokens(List(PathItems(path, 0)))
    {
      hide PathItems, ItemTokens;
      ghost var before := out;
      PathCount(path, 0);
      NoMoreItems(path);
      Put(ArrayT(2 * |path|));
      for i := 0 to |path|
        invariant out + ItemTokens(PathItems(path, i)) == before + Tokens(List(PathItems(path, 0)))
      {
        ghost var was := out;
        Put(UIntT(Unharden(path[i])));
        Put(BoolT(Hardened(path[i])));
        PathStep(path, i);
        assert out + ItemTokens(PathItems(path, i + 1)) == was + ItemTokens(PathItems(path, i));
      }
      assert out + [] == out;
    }

    method EncodeUseInfo()
      modifies this
      ensures out == old(out) + Tokens(Tagged(TAG_USEINFO, Dict(UseInfo())))
    {
      Put(TagT(305));
      Put(MapT(2));
      Put(UIntT(1));
      Put(UIntT(0));
      Put(UIntT(2));
      Put(UIntT(1));
      UseInfoTokens();
    }

    method EncodeOrigin(w: Wallet)
      modifies this
      ensures out == old(out) + Tokens(Tagged(TAG_KEYPATH, Dict(OriginPairs(w))))
    {
      hide PathItems;
      Put(TagT(304));
      Put(MapT(3));
      Put(UIntT(1));
      EncodePath(w.path);
      Put(UIntT(2));
      Put(UIntT(w.fingerprint));
      Put(UIntT(3));
      Put(UIntT(|w.path|));
      OriginTokens(w);
    }

    method EncodeKeyMaterial(w: Wallet)
      modifies this
      ensures out == old(out) + [MapT(if w.test then 5 else 4), UIntT(3), BytesT(w.key), UIntT(4), BytesT(w.chain)]
    {
      Put(MapT(if w.test then 5 else 4));
      Put(UIntT(3));
      Put(BytesT(w.key));
      Put(UIntT(4));
      Put(BytesT(w.chain));
    }

    method EncodeNetwork(w: Wallet)
      modifies this
      ensures out == old(out) + (if w.test then [UIntT(5)] + Tokens(Tagged(TAG_USEINFO, Dict(UseInfo()))) else [])
    {
      hide UseInfo, Tokens;
      if w.test {
        Put(UIntT(5));
        EncodeUseInfo();
      }
    }

    method EncodeHdkey(w: Wallet)
      modifies this
      ensures out == old(out) + Tokens(Dict(KeyPairs(w)))
    {
      hide UseInfo, OriginPairs, Tokens, KeyPairs;
      EncodeKeyMaterial(w);
      EncodeNetwork(w);
      Put(UIntT(6));
      EncodeOrigin(w);
      Put(UIntT(8));
      Put(UIntT(w.parent));
      KeyTokens(w);
    }

    // One output of an account: script tags, key tag, key.
    method EncodeOutput(v: Variant, w: Wallet)
      modifies this
      ensures out == old(out) + Tokens(OutputItem(v, w))
    {
      hide KeyPairs, Tokens;
      OutputTokens(v, w);
      EncodeScriptVariantTag(v);
      Put(TagT(303));
      EncodeHdkey(w);
    }
  }

  lemma {:induction false} PathCount(path: seq<nat>, i: nat)
    requires i <= |path|
    ensures Count(PathItems(path, i)) == 2 * (|path| - i)
    decreases |path| - i
  {
    if i < |path| {
      PathCount(path, i + 1);
      assert Count(Items(Bool(Hardened(path[i])), PathItems(path, i + 1))) == 1 + Count(PathItems(path, i + 1));
    }
  }

  lemma NoMoreItems(path: seq<nat>)
    ensures ItemTokens(PathItems(path, |path|)) == []
  {
  }

  lemma PathStep(path: seq<nat>, i: nat)
    requires i < |path|
    ensures ItemTokens(PathItems(path, i)) ==
            [UIntT(Unharden(path[i])), BoolT(Hardened(path[i]))] + ItemTokens(PathItems(path, i + 1))
  {
    var rest := PathItems(path, i + 1);
    assert ItemTokens(Items(Bool(Hardened(path[i])), rest)) == [BoolT(Hardened(path[i]))] + ItemTokens(rest);
  }

  lemma OutputTokens(v: Variant, w: Wallet)
    ensures Tokens(OutputItem(v, w)) == (match v
              case P2PKH => [TagT(TAG_PKH)]
              case P2WPKH => [TagT(TAG_WPKH)]
              case P2WPKH_P2SH => [TagT(TAG_SH), TagT(TAG_WPKH)]) + [TagT(TAG_HDKEY)] + Tokens(Dict(KeyPairs(w)))
  {
    var key := Tagged(TAG_HDKEY, Dict(KeyPairs(w)));
    assert Tokens(key) == [TagT(TAG_HDKEY)] + Tokens(Dict(KeyPairs(w)));
    assert Tokens(Tagged(TAG_WPKH, key)) == [TagT(TAG_WPKH)] + Tokens(key);
  }

  lemma OnePair(key: nat, value: Item, rest: Pairs)
    ensures PairTokens(Pairs(UInt(key), value, rest)) == [UIntT(key)] + (Tokens(value) + PairTokens(rest))
    ensures PairCount(Pairs(UInt(key), value, rest)) == 1 + PairCount(rest)
  {
    assert Tokens(UInt(key)) == [UIntT(key)];
  }

  lemma NoPair()
    ensures PairTokens(NoPairs) == [] && PairCount(NoPairs) == 0
  {
  }

  lemma TaggedDict(tag: nat, pairs: Pairs)
    ensures Tokens(Tagged(tag, Dict(pairs))) == [TagT(tag)] + ([MapT(PairCount(pairs))] + PairTokens(pairs))
  {
    assert Tokens(Dict(pairs)) == [MapT(PairCount(pairs))] + PairTokens(pairs);
  }

  lemma Leaf(v: nat)
    ensures Tokens(UInt(v)) == [UIntT(v)]
  {
  }

  lemma UseInfoTokens()
    ensures Tokens(Tagged(TAG_USEINFO, Dict(UseInfo()))) == [TagT(305), MapT(2), UIntT(1), UIntT(0), UIntT(2), UIntT(1)]
  {
    hide Tokens, PairTokens, PairCount;
    TaggedDict(TAG_USEINFO, UseInfo());
    OnePair(1, UInt(0), Pairs(UInt(2), UInt(1), NoPairs));
    OnePair(2, UInt(1), NoPairs);
    NoPair();
    Leaf(0);
    Leaf(1);
  }

  lemma OriginTokens(w: Wallet)
    ensures Tokens(Tagged(TAG_KEYPATH, Dict(OriginPairs(w)))) ==
            [TagT(304), MapT(3), UIntT(1)] + Tokens(List(PathItems(w.path, 0)))
            + [UIntT(2), UIntT(w.fingerprint), UIntT(3), UIntT(|w.path|)]
  {
    hide Tokens, PairTokens, PairCount, PathItems;
    var depth := Pairs(UInt(3), UInt(|w.path|), NoPairs);
    var fp := Pairs(UInt(2), UInt(w.fingerprint), depth);
    TaggedDict(TAG_KEYPATH, OriginPairs(w));
    OnePair(1, List(PathItems(w.path, 0)), fp);
    OnePair(2, UInt(w.fingerprint), depth);
    OnePair(3, UInt(|w.path|), NoPairs);
    NoPair();
    Leaf(w.fingerprint);
    Leaf(|w.path|);
  }

  lemma KeyTokens(w: Wallet)
    ensures Tokens(Dict(KeyPairs(w))) ==
            [MapT(if w.test then 5 else 4), UIntT(3), BytesT(w.key), UIntT(4), BytesT(w.chain)]
            + (if w.test then [UIntT(5)] + Tokens(Tagged(TAG_USEINFO, Dict(UseInfo()))) else [])
            + [UIntT(6)] + Tokens(Tagged(TAG_KEYPATH, Dict(OriginPairs(w)))) + [UIntT(8), UIntT(w.parent)]
  {
    LeafBytes(w.key);
    LeafBytes(w.chain);
    DictTokens(KeyPairs(w));
    hide Tokens, PairTokens, PairCount, UseInfo, OriginPairs;
    var tail := KeyTail(w);
    var info := Tagged(TAG_USEINFO, Dict(UseInfo()));
    var rest := if w.test then Pairs(UInt(5), info, tail) else tail;
    OnePair(3, Bytes(w.key), Pairs(UInt(4), Bytes(w.chain), rest));
    OnePair(4, Bytes(w.chain), rest);
    OnePair(5, info, tail);
    OnePair(6, Tagged(TAG_KEYPATH, Dict(OriginPairs(w))), Pairs(UInt(8), UInt(w.parent), NoPairs));
    OnePair(8, UInt(w.parent), NoPairs);
    NoPair();
    Leaf(w.parent);
  }

  lemma LeafBytes(b: seq<nat>)
    ensures Tokens(Bytes(b)) == [BytesT(b)]
  {
  }
}
