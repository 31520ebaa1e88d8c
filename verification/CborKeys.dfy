// What a key in an output descriptor means (hdkey_to_text() of main/bcur.c), told on its item tree and in literal text:
// any order of entries, any tag where it is optional, every optional part present or not.
module CborKeys {
  import opened Options
  import opened CborTree
  import opened CborMaps
  import opened CborOutput
  import K = DescriptorKeys

  // A step of the origin path and whether it is hardened.
  datatype Step = Step(index: nat, hardened: bool)

  datatype KeySpec = KeySpec(key: seq<nat>, chain: seq<nat>, test: bool, fingerprint: nat, steps: seq<Step>,
                             depth: Option<nat>, parent: Option<nat>, branches: Option<(nat, nat)>)

  // ---------------------------------------------------------------- the tree

  function Untagged(item: Item, a: nat, b: nat): Item {
    if item.Tagged? && (item.tag == a || item.tag == b) then item.content else item
  }

  ghost predicate Map(item: Item) {
    item.Dict? && PairsOk(item.pairs, {})
  }

  ghost function Get(item: Item, key: nat): Option<Item>
    requires Map(item)
  {
    OkKeys(item.pairs, {});
    FindPair(item.pairs, key)
  }

  function StepItems(steps: seq<Step>): Items {
    if steps == [] then NoItems
    else Items(UInt(steps[0].index), Items(Bool(steps[0].hardened), StepItems(steps[1..])))
  }

  // Coin 0 if any, network 0 or 1 if any.
  ghost predicate NetworkIs(info: Option<Item>, test: bool) {
    if info.None? then !test
    else
      var m := Untagged(info.value, 305, 40305);
      && Map(m) && (Get(m, 1) == None || Get(m, 1) == Some(UInt(0)))
      && (if test then Get(m, 2) == Some(UInt(1)) else Get(m, 2) == None || Get(m, 2) == Some(UInt(0)))
  }

  ghost predicate OriginIs(item: Item, k: KeySpec) {
    var m := Untagged(item, 304, 40304);
    && Map(m) && Get(m, 1) == Some(List(StepItems(k.steps))) && Get(m, 2) == Some(UInt(k.fingerprint))
    && Get(m, 3) == (if k.depth.None? then None else Some(UInt(k.depth.value)))
  }

  function BranchItems(a: nat, b: nat): Items {
    Items(List(Items(UInt(a), Items(Bool(false), Items(UInt(b), Items(Bool(false), NoItems))))),
          Items(List(NoItems), Items(Bool(false), NoItems)))
  }

  ghost predicate ChildrenAre(item: Option<Item>, branches: Option<(nat, nat)>) {
    if item.None? then branches.None?
    else
      var m := Untagged(item.value, 304, 40304);
      Map(m) && branches.Some? && Get(m, 1) == Some(List(BranchItems(branches.value.0, branches.value.1)))
  }

  predicate SpecOk(k: KeySpec) {
    && |k.key| == 33 && |k.chain| == 32 && k.fingerprint < 0x1_0000_0000 && |k.steps| <= 16
    && (forall i :: 0 <= i < |k.steps| ==> k.steps[i].index < 0x8000_0000)
    && (k.depth.Some? ==> k.depth.value <= 255) && (k.parent.Some? ==> k.parent.value < 0x1_0000_0000)
    && (k.branches.Some? ==> k.branches.value.0 < 0x8000_0000 && k.branches.value.1 < 0x8000_0000)
  }

  // The tree of this key.
  ghost predicate Describes(item: Item, k: KeySpec) {
    var m := Untagged(item, 303, 40303);
    && SpecOk(k) && Map(m)
    && (Get(m, 2) == None || Get(m, 2) == Some(Bool(false)))
    && Get(m, 3) == Some(Bytes(k.key)) && Get(m, 4) == Some(Bytes(k.chain))
    && NetworkIs(Get(m, 5), k.test) && Get(m, 6).Some? && OriginIs(Get(m, 6).value, k)
    && ChildrenAre(Get(m, 7), k.branches)
    && Get(m, 8) == (if k.parent.None? then None else Some(UInt(k.parent.value)))
  }

  // ---------------------------------------------------------------- the text

  // '48h/0h/0h/2h'
  function StepsText(steps: seq<Step>): string {
    if steps == [] then ""
    else
      var most, s := steps[..|steps| - 1], steps[|steps| - 1];
      StepsText(most) + ((if most == [] then "" else "/") + (K.Dec(s.index) + (if s.hardened then "h" else "")))
  }

  // Eight hexadecimal digits, the highest first.
  function HexDigits(n: nat, k: nat): string {
    if k == 0 then "" else HexDigits(n / 16, k - 1) + ["0123456789abcdef"[n % 16]]
  }

  function BranchText(branches: Option<(nat, nat)>): string {
    var (a, b) := if branches.None? then (0, 1) else branches.value;
    "/<" + (K.Dec(a) + (";" + (K.Dec(b) + ">/*")))
  }

  // '[fingerprint/path]xpub/<a;b>/*', without a slash for an empty path
  function KeyString(k: KeySpec, xpub: string): string {
    "[" + (HexDigits(k.fingerprint, 8) + ((if k.steps == [] then "" else "/" + StepsText(k.steps))
    + ("]" + (xpub + BranchText(k.branches)))))
  }

  function LastStep(steps: seq<Step>): nat {
    if steps == [] then 0
    else
      var s := steps[|steps| - 1];
      if s.hardened then s.index + 0x8000_0000 else s.index
  }

  // What the extended key is rebuilt from: the declared depth, or that of the path; no child number at depth 0.
  function Material(k: KeySpec): KeyData {
    var depth := if k.depth.None? then |k.steps| else k.depth.value;
    KeyData(k.test, depth, if depth == 0 then 0 else LastStep(k.steps), k.chain, k.key,
            if k.parent.None? then 0 else k.parent.value)
  }

  // ---------------------------------------------------------------- reading the parts

  lemma HoldsUntag(c: Cursor, item: Item, a: nat, b: nat)
    requires Holds(c, item)
    ensures Holds(SkipTagIf(c, a, b).0, Untagged(item, a, b))
  {
    HoldsFirst(c, item);
    KeyHead(item);
    if item.Tagged? {
      HoldsUntagged(c, item.tag, item.content);
    }
    hide Holds, Tokens;
  }

  lemma KeyHead(item: Item)
    ensures Tokens(item)[0].TagT? <==> item.Tagged?
    ensures item.Tagged? ==> Tokens(item)[0].tag == item.tag
  {
  }

  // A map's entry, and where the lookup of it stands.
  lemma Looked(c: Cursor, item: Item, key: nat)
    requires Holds(c, item) && Map(item)
    ensures KeysUnique(c) && (Find(c, key).Some? <==> Get(item, key).Some?)
    ensures Find(c, key).Some? ==> Holds(Find(c, key).value, Get(item, key).value)
  {
    hide Holds, Find, KeysUnique, FindPair;
    OkKeys(item.pairs, {});
    CheckedMap(c, item.pairs);
    FoundInMap(c, item.pairs, key);
  }

  lemma NumberRead(c: Cursor, v: nat)
    requires Holds(c, UInt(v))
    ensures GetUint32(c) == if v < 0x1_0000_0000 then Some(v) else None
  {
    HoldsFirst(c, UInt(v));
  }

  lemma FlagRead(c: Cursor, b: bool)
    requires Holds(c, Bool(b))
    ensures GetBool(c) == Some(b)
  {
    HoldsFirst(c, Bool(b));
  }

  lemma BytesRead(c: Cursor, b: seq<nat>)
    requires Holds(c, Bytes(b))
    ensures GetBytes(c, |b|) == Some(b)
  {
    HoldsFirst(c, Bytes(b));
  }

  lemma NetworkRead(key: Cursor, m: Item, test: bool)
    requires Holds(key, m) && Map(m) && NetworkIs(Get(m, 5), test)
    ensures Network(key) == Some(test)
  {
    hide Holds, Find, KeysUnique, Get, GetUint32, Map;
    Looked(key, m, 5);
    if Get(m, 5).Some? {
      HoldsUntag(Find(key, 5).value, Get(m, 5).value, 305, 40305);
      var info, t := SkipTagIf(Find(key, 5).value, 305, 40305).0, Untagged(Get(m, 5).value, 305, 40305);
      Looked(info, t, 1);
      Looked(info, t, 2);
      if Get(t, 1).Some? {
        NumberRead(Find(info, 1).value, 0);
      }
      if Get(t, 2).Some? {
        NumberRead(Find(info, 2).value, if test then 1 else 0);
      }
    }
  }

  // ---------------------------------------------------------------- the origin

  // At step i of the path.
  function AtStep(steps: seq<Step>, i: nat, rest: seq<Token>): Cursor
    requires i <= |steps|
  {
    Cursor(ItemTokens(StepItems(steps[i..])) + rest, 2 * (|steps| - i))
  }

  lemma StepRead(steps: seq<Step>, i: nat, rest: seq<Token>)
    requires i < |steps| && steps[i].index < 0x8000_0000
    ensures NextComponent(AtStep(steps, i, rest)) ==
            Some((steps[i].index, steps[i].hardened, AtStep(steps, i + 1, rest)))
  {
    var c, more := AtStep(steps, i, rest), ItemTokens(StepItems(steps[i + 1..])) + rest;
    assert steps[i..][1..] == steps[i + 1..];
    StepTokens(steps[i..]);
    if i + 1 < |steps| {
      StepTokens(steps[i + 1..]);
    }
    hide ItemTokens, StepItems;
    var number, flag := UIntT(steps[i].index), BoolT(steps[i].hardened);
    assert c.toks == [number] + ([flag] + more);
    assert c.toks[1..] == [flag] + more && ([flag] + more)[1..] == more;
  }

  lemma StepTokens(steps: seq<Step>)
    requires steps != []
    ensures ItemTokens(StepItems(steps)) ==
            [UIntT(steps[0].index)] + ([BoolT(steps[0].hardened)] + ItemTokens(StepItems(steps[1..])))
  {
    var number, flag, more := UInt(steps[0].index), Bool(steps[0].hardened), StepItems(steps[1..]);
    ItemInFront(number, Items(flag, more));
    ItemInFront(flag, more);
  }

  lemma ItemInFront(head: Item, tail: Items)
    ensures ItemTokens(Items(head, tail)) == Tokens(head) + ItemTokens(tail)
    ensures ItemTokens(NoItems) == [] && Count(Items(head, tail)) == 1 + Count(tail)
  {
  }

  lemma {:induction false} StepsTextFits(steps: seq<Step>)
    requires forall i :: 0 <= i < |steps| ==> steps[i].index < 0x8000_0000
    ensures |StepsText(steps)| <= 12 * |steps| && (steps != [] ==> StepsText(steps) != "")
  {
    if steps != [] {
      hide K.Dec;
      StepsTextFits(steps[..|steps| - 1]);
      DecFits(steps[|steps| - 1].index);
    }
  }

  lemma DecFits(n: nat)
    requires n < 0x8000_0000
    ensures 1 <= |K.Dec(n)| <= 10
  {
    K.PowTenMonotone(10, 10);
    K.DecLength(n, 10);
  }

  lemma StepsTextNext(steps: seq<Step>, i: nat)
    requires i < |steps|
    ensures StepsText(steps[..i + 1]) == StepsText(steps[..i]) + Component(steps[i].index, steps[i].hardened, i == 0)
    ensures LastStep(steps[..i + 1]) == if steps[i].hardened then steps[i].index + 0x8000_0000 else steps[i].index
  {
    hide K.Dec;
    assert steps[..i + 1][..i] == steps[..i];
  }

  lemma {:induction false} StepsRead(steps: seq<Step>, i: nat, rest: seq<Token>)
    requires i <= |steps| <= 16 && forall k :: 0 <= k < |steps| ==> steps[k].index < 0x8000_0000
    ensures PathFrom(AtStep(steps, i, rest), Path(StepsText(steps[..i]), i, LastStep(steps[..i]))) ==
            Some(Path(StepsText(steps), |steps|, LastStep(steps)))
    decreases |steps| - i
  {
    hide NextComponent, Component, ItemTokens, StepItems, StepsText, LastStep;
    if i < |steps| {
      StepRead(steps, i, rest);
      StepsTextNext(steps, i);
      StepsTextFits(steps[..i + 1]);
      StepsRead(steps, i + 1, rest);
    } else {
      assert steps[..i] == steps;
    }
  }

  lemma {:induction false} StepCount(steps: seq<Step>)
    ensures Count(StepItems(steps)) == 2 * |steps|
  {
    if steps != [] {
      StepCount(steps[1..]);
    }
  }

  lemma PathRead(c: Cursor, steps: seq<Step>)
    requires Holds(c, List(StepItems(steps))) && |steps| <= 16
    requires forall k :: 0 <= k < |steps| ==> steps[k].index < 0x8000_0000
    ensures OriginPath(c) == Some(Path(StepsText(steps), |steps|, LastStep(steps)))
  {
    hide PathFrom, ItemTokens, StepItems, Tokens, Holds, Count, StepsText, LastStep;
    var rest := HoldsSplit(c, List(StepItems(steps)));
    StepCount(steps);
    ListHead(StepItems(steps));
    if |steps| > 0 {
      StepTokens(steps);
    }
    assert steps[0..] == steps && steps[..0] == [];
    assert c.toks == [ArrayT(2 * |steps|)] + (ItemTokens(StepItems(steps)) + rest);
    assert c.toks[1..] == ItemTokens(StepItems(steps)) + rest;
    assert Enter(c) == Some(AtStep(steps, 0, rest));
    NoSteps();
    StepsRead(steps, 0, rest);
  }

  lemma NoSteps()
    ensures StepsText([]) == "" && LastStep([]) == 0
  {
  }

  lemma ListHead(items: Items)
    ensures Tokens(List(items)) == [ArrayT(Count(items))] + ItemTokens(items)
  {
  }

  lemma OriginRead(key: Cursor, m: Item, k: KeySpec)
    requires Holds(key, m) && Map(m) && Get(m, 6).Some? && OriginIs(Get(m, 6).value, k) && SpecOk(k)
    ensures ReadOrigin(key) ==
            Ok(Origin(k.fingerprint, Path(StepsText(k.steps), |k.steps|, LastStep(k.steps)), Material(k).depth))
  {
    hide Holds, Find, KeysUnique, Get, GetUint32, Map, OriginPath, StepItems, StepsText, LastStep;
    Looked(key, m, 6);
    HoldsUntag(Find(key, 6).value, Get(m, 6).value, 304, 40304);
    var origin, t := SkipTagIf(Find(key, 6).value, 304, 40304).0, Untagged(Get(m, 6).value, 304, 40304);
    Looked(origin, t, 1);
    Looked(origin, t, 2);
    Looked(origin, t, 3);
    PathRead(Find(origin, 1).value, k.steps);
    NumberRead(Find(origin, 2).value, k.fingerprint);
    if k.depth.Some? {
      NumberRead(Find(origin, 3).value, k.depth.value);
    }
  }

  // ---------------------------------------------------------------- the branches

  lemma BranchTokens(a: nat, b: nat)
    ensures Tokens(List(BranchItems(a, b))) ==
            [ArrayT(3), ArrayT(4), UIntT(a), BoolT(false), UIntT(b), BoolT(false), ArrayT(0), BoolT(false)]
  {
    var last, no := Items(Bool(false), NoItems), Bool(false);
    var second := Items(UInt(b), last);
    var pair := Items(UInt(a), Items(no, second));
    var wild := Items(List(NoItems), last);
    ListHead(NoItems);
    ListHead(pair);
    ListHead(Items(List(pair), wild));
    hide ItemTokens, Count;
    ItemInFront(no, NoItems);
    ItemInFront(UInt(b), last);
    ItemInFront(no, second);
    ItemInFront(UInt(a), Items(no, second));
    ItemInFront(List(NoItems), last);
    ItemInFront(List(pair), wild);
    NoneCounted();
  }

  lemma NoneCounted()
    ensures Count(NoItems) == 0
  {
  }

  lemma BranchesRead(c: Cursor, a: nat, b: nat)
    requires Holds(c, List(BranchItems(a, b))) && a < 0x8000_0000 && b < 0x8000_0000
    ensures Children(c) == Some(BranchText(Some((a, b))))
  {
    var rest := HoldsSplit(c, List(BranchItems(a, b)));
    BranchTokens(a, b);
    hide Holds, Tokens, BranchItems, K.Dec;
    var n := c.remaining;
    var flag := [BoolT(false)] + rest;
    var wild := [ArrayT(0)] + flag;
    var second := [UIntT(b)] + ([BoolT(false)] + wild);
    var pair := [UIntT(a)] + ([BoolT(false)] + second);
    assert c.toks == [ArrayT(3)] + ([ArrayT(4)] + pair);
    var it := Cursor([ArrayT(4)] + pair, 3);
    assert Enter(c) == Some(it);
    assert Enter(it) == Some(Cursor(pair, 4));
    PairRead(a, b, wild);
    FourSkipped(UIntT(a), BoolT(false), UIntT(b), BoolT(false), wild);
    assert ([ArrayT(4)] + pair)[1..] == pair;
    assert Advance(it) == Some(Cursor(wild, 2));
    assert wild[1..] == flag && flag[1..] == rest;
    NoneToSkip(flag);
    assert Advance(Cursor(wild, 2)) == Some(Cursor(flag, 1));
    assert Advance(Cursor(flag, 1)) == Some(Cursor(rest, 0));
  }

  lemma FourSkipped(a: Token, b: Token, c: Token, d: Token, more: seq<Token>)
    requires a.UIntT? && b.BoolT? && c.UIntT? && d.BoolT?
    ensures SkipItems([a] + ([b] + ([c] + ([d] + more))), 4) == Some(more)
  {
    hide SkipItems;
    SkipHead(a, [b] + ([c] + ([d] + more)), 4);
    SkipHead(b, [c] + ([d] + more), 3);
    SkipHead(c, [d] + more, 2);
    SkipHead(d, more, 1);
    NoneToSkip(more);
  }

  lemma PairRead(a: nat, b: nat, more: seq<Token>)
    requires a < 0x8000_0000 && b < 0x8000_0000 && more != []
    ensures BranchPair(Cursor([UIntT(a)] + ([BoolT(false)] + ([UIntT(b)] + ([BoolT(false)] + more))), 4)) ==
            Some((a, b))
  {
    var third := [BoolT(false)] + more;
    var second := [UIntT(b)] + third;
    var first := [BoolT(false)] + second;
    var c := Cursor([UIntT(a)] + first, 4);
    assert c.toks[1..] == first && first[1..] == second && second[1..] == third;
    assert Advance(c) == Some(Cursor(first, 3));
    assert Advance(Cursor(first, 3)) == Some(Cursor(second, 2));
    assert Advance(Cursor(second, 2)) == Some(Cursor(third, 1));
  }

  lemma ChildrenRead(key: Cursor, m: Item, k: KeySpec)
    requires Holds(key, m) && Map(m) && ChildrenAre(Get(m, 7), k.branches) && SpecOk(k)
    ensures ReadChildren(key) == Some(BranchText(k.branches))
  {
    Looked(key, m, 7);
    NoBranches();
    hide Holds, Find, KeysUnique, Get, Map, BranchItems, BranchText, Children;
    if Get(m, 7).Some? {
      HoldsUntag(Find(key, 7).value, Get(m, 7).value, 304, 40304);
      var path, t := SkipTagIf(Find(key, 7).value, 304, 40304).0, Untagged(Get(m, 7).value, 304, 40304);
      Looked(path, t, 1);
      BranchesRead(Find(path, 1).value, k.branches.value.0, k.branches.value.1);
    }
  }

  lemma NoBranches()
    ensures BranchText(None) == "/<0;1>/*"
  {
    assert K.Dec(0) == "0" && K.Dec(1) == "1";
  }

  // ---------------------------------------------------------------- the key

  lemma {:induction false} HexIs(n: nat, k: nat)
    ensures Hex(n, k) == HexDigits(n, k)
  {
    if k > 0 {
      HexIs(n / 16, k - 1);
      HexChar(n % 16);
    }
  }

  lemma HexChar(d: nat)
    requires d < 16
    ensures (if d < 10 then '0' + d as char else 'a' + (d - 10) as char) == "0123456789abcdef"[d]
  {
  }

  // Any key of this tree, wherever it stands: its text, if it fits.
  lemma KeyReads(c: Cursor, item: Item, k: KeySpec, room: nat, base58: Base58)
    requires Holds(c, item) && Describes(item, k) && base58(Material(k)).Some?
    ensures var text := KeyString(k, base58(Material(k)).value);
            HdkeyText(c, room, base58) == if |text| < room then Ok(text) else Err(TooLarge)
  {
    hide Holds, Find, KeysUnique, Get, GetUint32, GetBytes, GetBool, Map, Network, ReadOrigin, ReadChildren;
    hide StepsText, LastStep, BranchText, Hex, HexDigits, NetworkIs, OriginIs, ChildrenAre;
    HoldsUntag(c, item, 303, 40303);
    var key, m := SkipTagIf(c, 303, 40303).0, Untagged(item, 303, 40303);
    Looked(key, m, 2);
    Looked(key, m, 3);
    Looked(key, m, 4);
    Looked(key, m, 8);
    if Get(m, 2).Some? {
      FlagRead(Find(key, 2).value, false);
    }
    BytesRead(Find(key, 3).value, k.key);
    BytesRead(Find(key, 4).value, k.chain);
    if k.parent.Some? {
      NumberRead(Find(key, 8).value, k.parent.value);
    }
    NetworkRead(key, m, k.test);
    OriginRead(key, m, k);
    ChildrenRead(key, m, k);
    HexIs(k.fingerprint, 8);
    StepsTextFits(k.steps);
    NoSteps();
  }

  // A private key, or one of another coin, is refused.
  lemma KeyRefused(c: Cursor, item: Item, room: nat, base58: Base58)
    requires Holds(c, item)
    requires var m := Untagged(item, 303, 40303);
             && Map(m)
             && (Get(m, 2) == Some(Bool(true)) ||
                 (Get(m, 5).Some? &&
                  exists coin :: coin != 0 && OtherCoin(Untagged(Get(m, 5).value, 305, 40305), coin)))
    ensures HdkeyText(c, room, base58).Err?
    ensures Get(Untagged(item, 303, 40303), 2) == Some(Bool(true)) ==> HdkeyText(c, room, base58) == Err(Unsupported)
  {
    hide Holds, Find, KeysUnique, Get, GetUint32, GetBytes, GetBool, Map, ReadOrigin, ReadChildren;
    HoldsUntag(c, item, 303, 40303);
    var key, m := SkipTagIf(c, 303, 40303).0, Untagged(item, 303, 40303);
    Looked(key, m, 2);
    Looked(key, m, 5);
    if Get(m, 2) == Some(Bool(true)) {
      FlagRead(Find(key, 2).value, true);
    } else {
      HoldsUntag(Find(key, 5).value, Get(m, 5).value, 305, 40305);
      var info, t := SkipTagIf(Find(key, 5).value, 305, 40305).0, Untagged(Get(m, 5).value, 305, 40305);
      var coin :| coin != 0 && OtherCoin(t, coin);
      Looked(info, t, 1);
      NumberRead(Find(info, 1).value, coin);
    }
  }

  ghost predicate OtherCoin(info: Item, coin: nat) {
    Map(info) && Get(info, 1) == Some(UInt(coin))
  }
}
