// CBOR traversal in main/bcur.c over any item tree: tag chains, stepping over values, the key check on maps and the
// lookup under a key. tinycbor's iterator is a cursor over tokens; a tag is a token of its own and does not count as
// an item (section 3.4 of RFC 8949).
module CborTree {
  import opened Options

  datatype Token =
    | UIntT(v: nat)
    | BoolT(b: bool)
    | BytesT(bytes: seq<nat>)
    | OtherT(code: nat)       // negative integers, text, simple values, floats
    | ArrayT(len: nat)
    | MapT(len: nat)          // in pairs
    | TagT(tag: nat)

  // The tokens to come and how many items of the current container are left.
  datatype Cursor = Cursor(toks: seq<Token>, remaining: nat)

  function First(c: Cursor): Option<Token> {
    if c.remaining == 0 || c.toks == [] then None else Some(c.toks[0])
  }

  predicate AtEnd(c: Cursor) {
    c.remaining == 0
  }

  predicate IsTag(c: Cursor) {
    First(c).Some? && First(c).value.TagT?
  }

  // Where an item is due there has to be one.
  function Landing(toks: seq<Token>, remaining: nat): Option<Cursor> {
    if remaining > 0 && toks == [] then None else Some(Cursor(toks, remaining))
  }

  // cbor_value_advance_fixed(): one token; only a tag leaves the count as it is.
  function AdvanceFixed(c: Cursor): (r: Option<Cursor>)
    requires First(c).Some?
    ensures r.Some? ==> |r.value.toks| < |c.toks|
  {
    Landing(c.toks[1..], if c.toks[0].TagT? then c.remaining else c.remaining - 1)
  }

  // The tokens after n whole items.
  function SkipItems(toks: seq<Token>, n: nat): (r: Option<seq<Token>>)
    ensures r.Some? ==> |r.value| <= |toks|
    decreases |toks|
  {
    if n == 0 then Some(toks)
    else if toks == [] then None
    else
      match toks[0]
      case TagT(_) => SkipItems(toks[1..], n)
      case ArrayT(len) => SkipItems(toks[1..], n - 1 + len)
      case MapT(len) => SkipItems(toks[1..], n - 1 + 2 * len)
      case _ => SkipItems(toks[1..], n - 1)
  }

  // cbor_value_advance(): a container whole, but of a tagged value only the tag.
  function Advance(c: Cursor): (r: Option<Cursor>)
    ensures r.Some? ==> |r.value.toks| < |c.toks|
  {
    if First(c).None? then None
    else if First(c).value.ArrayT? || First(c).value.MapT? then
      var t := First(c).value;
      var rest := SkipItems(c.toks[1..], if t.ArrayT? then t.len else 2 * t.len);
      if rest.None? then None else Landing(rest.value, c.remaining - 1)
    else AdvanceFixed(c)
  }

  // cbor_value_enter_container()
  function Enter(c: Cursor): (r: Option<Cursor>)
    requires First(c).Some? && (First(c).value.ArrayT? || First(c).value.MapT?)
    ensures r.Some? ==> |r.value.toks| < |c.toks|
  {
    var t := c.toks[0];
    Landing(c.toks[1..], if t.ArrayT? then t.len else 2 * t.len)
  }

  // advance_over_value(): the tag chain first, then the content.
  function AdvanceOver(c: Cursor): (r: Option<Cursor>)
    ensures r.Some? ==> |r.value.toks| < |c.toks|
    decreases |c.toks|
  {
    if IsTag(c) then
      if AdvanceFixed(c).None? then None else AdvanceOver(AdvanceFixed(c).value)
    else Advance(c)
  }

  method AdvanceOverValue(value: Cursor) returns (r: Option<Cursor>)
    ensures r == AdvanceOver(value)
  {
    var c := value;
    while IsTag(c)
      invariant AdvanceOver(c) == AdvanceOver(value)
      decreases |c.toks|
    {
      var next := AdvanceFixed(c);
      if next.None? {
        return None;
      }
      c := next.value;
    }
    r := Advance(c);
  }

  // ---------------------------------------------------------------- item trees

  datatype Item =
    | UInt(v: nat)
    | Bool(b: bool)
    | Bytes(bytes: seq<nat>)
    | Other(code: nat)
    | List(items: Items)
    | Dict(pairs: Pairs)
    | Tagged(tag: nat, content: Item)
  datatype Items = NoItems | Items(head: Item, tail: Items)
  datatype Pairs = NoPairs | Pairs(key: Item, value: Item, rest: Pairs)

  function Count(items: Items): nat {
    if items.NoItems? then 0 else 1 + Count(items.tail)
  }

  function PairCount(pairs: Pairs): nat {
    if pairs.NoPairs? then 0 else 1 + PairCount(pairs.rest)
  }

  function Tokens(item: Item): (r: seq<Token>)
    ensures r != []
  {
    match item
    case UInt(v) => [UIntT(v)]
    case Bool(b) => [BoolT(b)]
    case Bytes(b) => [BytesT(b)]
    case Other(code) => [OtherT(code)]
    case List(items) => [ArrayT(Count(items))] + ItemTokens(items)
    case Dict(pairs) => [MapT(PairCount(pairs))] + PairTokens(pairs)
    case Tagged(tag, content) => [TagT(tag)] + Tokens(content)
  }

  function ItemTokens(items: Items): seq<Token> {
    if items.NoItems? then [] else Tokens(items.head) + ItemTokens(items.tail)
  }

  function PairTokens(pairs: Pairs): seq<Token> {
    if pairs.NoPairs? then [] else Tokens(pairs.key) + (Tokens(pairs.value) + PairTokens(pairs.rest))
  }

  lemma SkipHead(t: Token, rest: seq<Token>, n: nat)
    requires n >= 1
    ensures SkipItems([t] + rest, n) ==
            if t.TagT? then SkipItems(rest, n)
            else SkipItems(rest, n - 1 + (if t.ArrayT? then t.len else if t.MapT? then 2 * t.len else 0))
  {
    assert ([t] + rest)[1..] == rest;
  }

  // An item's first token and the rest of it.
  function Head(item: Item): Token {
    Tokens(item)[0]
  }

  function Tail(item: Item): seq<Token> {
    match item
    case List(items) => ItemTokens(items)
    case Dict(pairs) => PairTokens(pairs)
    case Tagged(_, content) => Tokens(content)
    case _ => []
  }

  lemma HeadTail(item: Item, rest: seq<Token>)
    ensures Tokens(item) + rest == [Head(item)] + (Tail(item) + rest)
    ensures Head(item).TagT? <==> item.Tagged?
    ensures Head(item).ArrayT? <==> item.List?
    ensures Head(item).MapT? <==> item.Dict?
    ensures item.List? ==> Head(item).len == Count(item.items)
    ensures item.Dict? ==> Head(item).len == PairCount(item.pairs)
  {
    assert Tokens(item) == [Head(item)] + Tail(item);
    hide Tokens;
  }

  // Every item takes exactly one off the count, however deep it is and whatever tags it carries.
  lemma {:induction false} ItemSkipped(item: Item, rest: seq<Token>, n: nat)
    requires n >= 1
    ensures SkipItems(Tokens(item) + rest, n) == SkipItems(rest, n - 1)
    decreases item
  {
    hide SkipItems, Tokens, ItemTokens, PairTokens, Count, PairCount, Head;
    HeadTail(item, rest);
    SkipHead(Head(item), Tail(item) + rest, n);
    if item.List? {
      ItemsSkipped(item.items, rest, n - 1);
    } else if item.Dict? {
      PairsSkipped(item.pairs, rest, n - 1);
    } else if item.Tagged? {
      ItemSkipped(item.content, rest, n);
    } else {
      assert [] + rest == rest;
    }
  }

  lemma {:induction false} ItemsSkipped(items: Items, rest: seq<Token>, n: nat)
    ensures SkipItems(ItemTokens(items) + rest, n + Count(items)) == SkipItems(rest, n)
    decreases items
  {
    hide SkipItems, Tokens;
    if items.NoItems? {
      assert [] + rest == rest;
    } else {
      assert ItemTokens(items) + rest == Tokens(items.head) + (ItemTokens(items.tail) + rest);
      ItemSkipped(items.head, ItemTokens(items.tail) + rest, n + Count(items));
      ItemsSkipped(items.tail, rest, n);
    }
  }

  lemma {:induction false} PairsSkipped(pairs: Pairs, rest: seq<Token>, n: nat)
    ensures SkipItems(PairTokens(pairs) + rest, n + 2 * PairCount(pairs)) == SkipItems(rest, n)
    decreases pairs
  {
    hide SkipItems, Tokens;
    if pairs.NoPairs? {
      assert [] + rest == rest;
    } else {
      var more := PairTokens(pairs.rest) + rest;
      assert PairTokens(pairs) + rest == Tokens(pairs.key) + (Tokens(pairs.value) + more);
      ItemSkipped(pairs.key, Tokens(pairs.value) + more, n + 2 * PairCount(pairs));
      ItemSkipped(pairs.value, more, n + 2 * PairCount(pairs) - 1);
      PairsSkipped(pairs.rest, rest, n);
    }
  }

  // Stepping over a value consumes exactly one whole item, tag chains of any length included.
  lemma {:induction false} OverWholeItem(item: Item, rest: seq<Token>, remaining: nat)
    requires remaining >= 1
    ensures AdvanceOver(Cursor(Tokens(item) + rest, remaining)) == Landing(rest, remaining - 1)
    decreases item
  {
    hide SkipItems;
    var c := Cursor(Tokens(item) + rest, remaining);
    match item
    case Tagged(tag, content) =>
      assert c.toks[1..] == Tokens(content) + rest;
      OverWholeItem(content, rest, remaining);
    case List(items) =>
      assert c.toks[1..] == ItemTokens(items) + rest;
      ItemsSkipped(items, rest, 0);
      NoneToSkip(rest);
    case Dict(pairs) =>
      assert c.toks[1..] == PairTokens(pairs) + rest;
      PairsSkipped(pairs, rest, 0);
      NoneToSkip(rest);
    case _ =>
      assert c.toks[1..] == rest;
  }

  lemma NoneToSkip(rest: seq<Token>)
    ensures SkipItems(rest, 0) == Some(rest)
  {
  }

  // cbor_value_advance() alone does so for everything but tagged values, of which it takes one tag only.
  lemma PlainAdvance(item: Item, rest: seq<Token>, remaining: nat)
    requires remaining >= 1
    ensures !item.Tagged? ==> Advance(Cursor(Tokens(item) + rest, remaining)) == Landing(rest, remaining - 1)
    ensures item.Tagged? ==>
              Advance(Cursor(Tokens(item) + rest, remaining)) == Some(Cursor(Tokens(item.content) + rest, remaining))
  {
    hide SkipItems;
    if item.Tagged? {
      assert (Tokens(item) + rest)[1..] == Tokens(item.content) + rest;
    } else {
      OverWholeItem(item, rest, remaining);
    }
  }

  // ---------------------------------------------------------------- maps

  // Keys from the cursor on: plain unsigned integers, none below 64 twice or among those already seen.
  ghost function KeysFrom(c: Cursor, seen: set<nat>): bool
    decreases |c.toks|
  {
    if AtEnd(c) then true
    else if First(c).None? || !First(c).value.UIntT? then false
    else
      var key := First(c).value.v;
      var value := Advance(c);
      if value.None? || AtEnd(value.value) || (key < 64 && key in seen) then false
      else
        var next := AdvanceOver(value.value);
        if next.None? then false else KeysFrom(next.value, if key < 64 then seen + {key} else seen)
  }

  ghost predicate KeysUnique(c: Cursor) {
    First(c).Some? && First(c).value.MapT? && Enter(c).Some? && KeysFrom(Enter(c).value, {})
  }

  function FindFrom(c: Cursor, wanted: nat): Option<Cursor>
    decreases |c.toks|
  {
    if AtEnd(c) || First(c).None? || !First(c).value.UIntT? || Advance(c).None? then None
    else if First(c).value.v == wanted then Advance(c)
    else if AdvanceOver(Advance(c).value).None? then None
    else FindFrom(AdvanceOver(Advance(c).value).value, wanted)
  }

  function Find(c: Cursor, wanted: nat): Option<Cursor> {
    if First(c).None? || !First(c).value.MapT? || Enter(c).None? then None else FindFrom(Enter(c).value, wanted)
  }

  // seen & (1 << key), and seen | (1 << key)
  predicate HasBit(mask: bv64, a: bv7)
    requires a < 64
  {
    mask & ((1 as bv64) << a) != 0
  }

  function WithBit(mask: bv64, a: bv7): bv64
    requires a < 64
  {
    mask | ((1 as bv64) << a)
  }

  function Small(key: nat): (a: bv7)
    requires key < 64
    ensures a as nat == key && a < 64
  {
    key as bv7
  }

  predicate Seen(mask: bv64, key: nat)
    requires key < 64
  {
    HasBit(mask, Small(key))
  }

  function Mark(mask: bv64, key: nat): bv64
    requires key < 64
  {
    WithBit(mask, Small(key))
  }

  ghost predicate MaskIs(mask: bv64, keys: set<nat>) {
    && (forall k :: k in keys ==> k < 64)
    && forall k: nat :: k < 64 ==> (k in keys <==> Seen(mask, k))
  }

  lemma MaskEmpty()
    ensures MaskIs(0, {})
  {
    hide HasBit, Small;
    forall k: nat | k < 64 ensures !Seen(0, k) {
      NoneSeen(Small(k));
    }
  }

  lemma NoneSeen(a: bv7)
    requires a < 64
    ensures !HasBit(0, a)
  {
  }

  lemma OneBitPlain(mask: bv64, a: bv7, b: bv7)
    requires a < 64 && b < 64
    ensures (mask | ((1 as bv64) << a)) & ((1 as bv64) << b) != 0 <==> a == b || mask & ((1 as bv64) << b) != 0
  {
  }

  lemma OneBit(mask: bv64, a: bv7, b: bv7)
    requires a < 64 && b < 64
    ensures HasBit(WithBit(mask, a), b) <==> a == b || HasBit(mask, b)
  {
    OneBitPlain(mask, a, b);
  }

  lemma MarkOne(mask: bv64, key: nat, k: nat)
    requires key < 64 && k < 64
    ensures Seen(Mark(mask, key), k) <==> k == key || Seen(mask, k)
  {
    hide HasBit, WithBit, Small;
    OneBit(mask, Small(key), Small(k));
  }

  lemma MaskAdd(mask: bv64, keys: set<nat>, key: nat)
    requires MaskIs(mask, keys) && key < 64
    ensures MaskIs(Mark(mask, key), keys + {key})
  {
    hide Seen, Mark;
    forall k: nat | k < 64 ensures k in keys + {key} <==> Seen(Mark(mask, key), k) {
      MarkOne(mask, key, k);
    }
  }

  // map_keys_are_unique_uints(): keys below 64 in a bitmask.
  method MapKeysAreUniqueUints(map_: Cursor) returns (ok: bool)
    ensures ok == KeysUnique(map_)
  {
    hide Seen, Mark, MaskIs, Advance, AdvanceOver;
    if First(map_).None? || !First(map_).value.MapT? || Enter(map_).None? {
      return false;
    }
    var it := Enter(map_).value;
    var mask: bv64 := 0;
    ghost var keys: set<nat> := {};
    MaskEmpty();
    while !AtEnd(it)
      invariant KeysFrom(it, keys) == KeysUnique(map_) && MaskIs(mask, keys)
      decreases |it.toks|
    {
      if First(it).None? || !First(it).value.UIntT? {
        return false;
      }
      var key := First(it).value.v;
      var value := Advance(it);
      if value.None? || AtEnd(value.value) {
        return false;
      }
      if key < 64 {
        MaskTells(mask, keys, key);
        if Seen(mask, key) {
          return false;
        }
        MaskAdd(mask, keys, key);
        mask := Mark(mask, key);
      }
      var next := AdvanceOverValue(value.value);
      if next.None? {
        return false;
      }
      it := next.value;
      keys := if key < 64 then keys + {key} else keys;
    }
    return true;
  }

  lemma MaskTells(mask: bv64, keys: set<nat>, key: nat)
    requires MaskIs(mask, keys) && key < 64
    ensures key in keys <==> Seen(mask, key)
  {
  }

  method MapFindUintKey(map_: Cursor, wanted: nat) returns (r: Option<Cursor>)
    ensures r == Find(map_, wanted)
  {
    if First(map_).None? || !First(map_).value.MapT? || Enter(map_).None? {
      return None;
    }
    var it := Enter(map_).value;
    while !AtEnd(it)
      invariant FindFrom(it, wanted) == Find(map_, wanted)
      decreases |it.toks|
    {
      if First(it).None? || !First(it).value.UIntT? || Advance(it).None? {
        return None;
      }
      var value := Advance(it).value;
      if First(it).value.v == wanted {
        return Some(value);
      }
      var next := AdvanceOverValue(value);
      if next.None? {
        return None;
      }
      it := next.value;
    }
    return None;
  }
}
