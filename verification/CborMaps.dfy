// Map lookup in main/bcur.c over item trees: once a map passes the key check, a key below 64 has one entry, and the
// lookup returns it wherever it stands.
module CborMaps {
  import opened Options
  import opened CborTree

  // The cursor stands at this item.
  ghost predicate Holds(c: Cursor, item: Item) {
    c.remaining >= 1 && |Tokens(item)| <= |c.toks| && c.toks[..|Tokens(item)|] == Tokens(item)
  }

  lemma HoldsSplit(c: Cursor, item: Item) returns (rest: seq<Token>)
    requires Holds(c, item)
    ensures c == Cursor(Tokens(item) + rest, c.remaining) && c.remaining >= 1
  {
    rest := c.toks[|Tokens(item)|..];
  }

  lemma HoldsFrom(item: Item, rest: seq<Token>, remaining: nat)
    requires remaining >= 1
    ensures Holds(Cursor(Tokens(item) + rest, remaining), item)
  {
  }

  // Unsigned integer keys, none below 64 twice.
  ghost predicate PairsOk(pairs: Pairs, seen: set<nat>)
    decreases pairs
  {
    pairs.NoPairs? ||
    (pairs.key.UInt? && !(pairs.key.v < 64 && pairs.key.v in seen)
     && PairsOk(pairs.rest, if pairs.key.v < 64 then seen + {pairs.key.v} else seen))
  }

  predicate UIntKeys(pairs: Pairs) {
    pairs.NoPairs? || (pairs.key.UInt? && UIntKeys(pairs.rest))
  }

  function FindPair(pairs: Pairs, wanted: nat): Option<Item>
    requires UIntKeys(pairs)
  {
    if pairs.NoPairs? then None else if pairs.key.v == wanted then Some(pairs.value) else FindPair(pairs.rest, wanted)
  }

  // The map holds this value under this key.
  ghost predicate Entry(pairs: Pairs, key: nat, value: Item) {
    pairs.Pairs? && ((pairs.key == UInt(key) && pairs.value == value) || Entry(pairs.rest, key, value))
  }

  lemma {:induction false} OkKeys(pairs: Pairs, seen: set<nat>)
    requires PairsOk(pairs, seen)
    ensures UIntKeys(pairs)
    decreases pairs
  {
    if pairs.Pairs? {
      OkKeys(pairs.rest, if pairs.key.v < 64 then seen + {pairs.key.v} else seen);
    }
  }

  lemma KeyToken(item: Item)
    ensures Tokens(item)[0].UIntT? <==> item.UInt?
    ensures item.UInt? ==> Tokens(item)[0].v == item.v
  {
  }

  lemma PairCounts(pairs: Pairs)
    requires pairs.Pairs?
    ensures 2 * PairCount(pairs) == 2 * PairCount(pairs.rest) + 2
    ensures PairTokens(pairs) == Tokens(pairs.key) + (Tokens(pairs.value) + PairTokens(pairs.rest))
  {
  }

  // Where a pair leads: past the key to the value, past the value to the next key.
  lemma PairSteps(pairs: Pairs, rest: seq<Token>)
    requires pairs.Pairs?
    ensures var c := Cursor(PairTokens(pairs) + rest, 2 * PairCount(pairs));
            && First(c).Some? && (First(c).value.UIntT? <==> pairs.key.UInt?)
            && (pairs.key.UInt? ==> First(c).value.v == pairs.key.v)
            && (pairs.key.UInt? ==> Advance(c) == Some(AtValue(pairs, rest)))
    ensures AdvanceOver(AtValue(pairs, rest)) == Some(Cursor(PairTokens(pairs.rest) + rest, 2 * PairCount(pairs.rest)))
  {
    hide Advance, AdvanceOver, Tokens, PairTokens, PairCount;
    var more := PairTokens(pairs.rest) + rest;
    var value := Tokens(pairs.value) + more;
    PairCounts(pairs);
    assert PairTokens(pairs) + rest == Tokens(pairs.key) + value;
    KeyToken(pairs.key);
    PlainAdvance(pairs.key, value, 2 * PairCount(pairs));
    OverWholeItem(pairs.value, more, 2 * PairCount(pairs) - 1);
    MoreTokens(pairs.rest, rest);
  }

  // At a pair's value.
  function AtValue(pairs: Pairs, rest: seq<Token>): Cursor
    requires pairs.Pairs?
  {
    Cursor(Tokens(pairs.value) + (PairTokens(pairs.rest) + rest), 2 * PairCount(pairs) - 1)
  }

  lemma MoreTokens(pairs: Pairs, rest: seq<Token>)
    ensures PairCount(pairs) > 0 ==> PairTokens(pairs) + rest != []
  {
  }

  lemma {:induction false} KeysOnTree(pairs: Pairs, rest: seq<Token>, seen: set<nat>)
    ensures KeysFrom(Cursor(PairTokens(pairs) + rest, 2 * PairCount(pairs)), seen) <==> PairsOk(pairs, seen)
    decreases pairs
  {
    if pairs.Pairs? {
      hide Advance, AdvanceOver, PairTokens, Tokens;
      PairSteps(pairs, rest);
      if pairs.key.UInt? {
        KeysOnTree(pairs.rest, rest, if pairs.key.v < 64 then seen + {pairs.key.v} else seen);
      }
    }
  }

  lemma {:induction false} FindOnTree(pairs: Pairs, rest: seq<Token>, wanted: nat)
    requires UIntKeys(pairs)
    ensures var r := FindFrom(Cursor(PairTokens(pairs) + rest, 2 * PairCount(pairs)), wanted);
            && (r.Some? <==> FindPair(pairs, wanted).Some?)
            && (r.Some? ==> Holds(r.value, FindPair(pairs, wanted).value))
    decreases pairs
  {
    if pairs.Pairs? {
      hide Advance, AdvanceOver, PairTokens, Tokens;
      PairSteps(pairs, rest);
      if pairs.key.v == wanted {
        HoldsFrom(pairs.value, PairTokens(pairs.rest) + rest, 2 * PairCount(pairs) - 1);
      } else {
        FindOnTree(pairs.rest, rest, wanted);
      }
    }
  }

  lemma DictTokens(pairs: Pairs)
    ensures Tokens(Dict(pairs)) == [MapT(PairCount(pairs))] + PairTokens(pairs)
  {
  }

  lemma EntersDict(c: Cursor, pairs: Pairs) returns (rest: seq<Token>)
    requires Holds(c, Dict(pairs))
    ensures First(c).Some? && First(c).value.MapT?
    ensures Enter(c) == Some(Cursor(PairTokens(pairs) + rest, 2 * PairCount(pairs)))
  {
    hide Tokens, PairTokens, PairCount, Holds;
    rest := HoldsSplit(c, Dict(pairs));
    DictTokens(pairs);
    assert c.toks == [MapT(PairCount(pairs))] + (PairTokens(pairs) + rest);
    assert c.toks[1..] == PairTokens(pairs) + rest;
    MoreTokens(pairs, rest);
  }

  // The key check accepts exactly the maps whose keys are plain unsigned integers with none below 64 repeated.
  lemma CheckedMap(c: Cursor, pairs: Pairs)
    requires Holds(c, Dict(pairs))
    ensures KeysUnique(c) <==> PairsOk(pairs, {})
  {
    hide KeysFrom, PairTokens, Holds;
    var rest := EntersDict(c, pairs);
    KeysOnTree(pairs, rest, {});
  }

  lemma FoundInMap(c: Cursor, pairs: Pairs, wanted: nat)
    requires Holds(c, Dict(pairs)) && UIntKeys(pairs)
    ensures Find(c, wanted).Some? <==> FindPair(pairs, wanted).Some?
    ensures Find(c, wanted).Some? ==> Holds(Find(c, wanted).value, FindPair(pairs, wanted).value)
  {
    hide FindFrom, PairTokens, Holds;
    var rest := EntersDict(c, pairs);
    FindOnTree(pairs, rest, wanted);
  }

  lemma {:induction false} FoundIsEntry(pairs: Pairs, wanted: nat, value: Item)
    requires UIntKeys(pairs)
    ensures FindPair(pairs, wanted) == Some(value) ==> Entry(pairs, wanted, value)
    ensures Entry(pairs, wanted, value) ==> FindPair(pairs, wanted).Some?
  {
    if pairs.Pairs? {
      FoundIsEntry(pairs.rest, wanted, value);
    }
  }

  lemma {:induction false} NotAgain(pairs: Pairs, seen: set<nat>, key: nat, value: Item)
    requires PairsOk(pairs, seen) && key < 64 && key in seen
    ensures !Entry(pairs, key, value)
    decreases pairs
  {
    if pairs.Pairs? {
      NotAgain(pairs.rest, if pairs.key.v < 64 then seen + {pairs.key.v} else seen, key, value);
    }
  }

  lemma {:induction false} OnlyEntry(pairs: Pairs, seen: set<nat>, key: nat, value: Item)
    requires PairsOk(pairs, seen) && UIntKeys(pairs) && key < 64 && Entry(pairs, key, value)
    ensures FindPair(pairs, key) == Some(value)
    decreases pairs
  {
    var now := if pairs.key.v < 64 then seen + {pairs.key.v} else seen;
    if pairs.key.v == key {
      NotAgain(pairs.rest, now, key, value);
    } else {
      OnlyEntry(pairs.rest, now, key, value);
    }
  }

  function KeyAt(pairs: Pairs, i: nat): Item
    requires i < PairCount(pairs)
  {
    if i == 0 then pairs.key else KeyAt(pairs.rest, i - 1)
  }

  // Plain unsigned integers, of which none below 64 is in `seen` or stands at two places.
  ghost predicate Unique(pairs: Pairs, seen: set<nat>) {
    && (forall i :: 0 <= i < PairCount(pairs) ==>
          KeyAt(pairs, i).UInt? && (KeyAt(pairs, i).v < 64 ==> KeyAt(pairs, i).v !in seen))
    && (forall i, j :: 0 <= i < j < PairCount(pairs) && KeyAt(pairs, i).UInt? && KeyAt(pairs, i).v < 64 ==>
          KeyAt(pairs, i) != KeyAt(pairs, j))
  }

  lemma UniqueFirst(pairs: Pairs, seen: set<nat>)
    requires pairs.Pairs?
    ensures Unique(pairs, seen) <==>
            && pairs.key.UInt? && (pairs.key.v < 64 ==> pairs.key.v !in seen)
            && Unique(pairs.rest, if pairs.key.v < 64 then seen + {pairs.key.v} else seen)
  {
    var rest := pairs.rest;
    assert forall i :: 0 < i < PairCount(pairs) ==> KeyAt(pairs, i) == KeyAt(rest, i - 1);
    assert KeyAt(pairs, 0) == pairs.key;
    if pairs.key.UInt? && (pairs.key.v < 64 ==> pairs.key.v !in seen) {
      var more := if pairs.key.v < 64 then seen + {pairs.key.v} else seen;
      if Unique(rest, more) {
        forall i, j | 0 <= i < j < PairCount(pairs) && KeyAt(pairs, i).UInt? && KeyAt(pairs, i).v < 64
          ensures KeyAt(pairs, i) != KeyAt(pairs, j)
        {
          assert KeyAt(rest, j - 1) == KeyAt(pairs, j);
          if i > 0 {
            assert KeyAt(rest, i - 1) == KeyAt(pairs, i);
          }
        }
      }
      if Unique(pairs, seen) {
        forall i | 0 <= i < PairCount(rest)
          ensures KeyAt(rest, i).UInt? && (KeyAt(rest, i).v < 64 ==> KeyAt(rest, i).v !in more)
        {
          assert KeyAt(pairs, i + 1) == KeyAt(rest, i);
          assert KeyAt(pairs, 0) != KeyAt(pairs, i + 1) || pairs.key.v >= 64;
        }
        forall i, j | 0 <= i < j < PairCount(rest) && KeyAt(rest, i).UInt? && KeyAt(rest, i).v < 64
          ensures KeyAt(rest, i) != KeyAt(rest, j)
        {
          assert KeyAt(pairs, i + 1) == KeyAt(rest, i) && KeyAt(pairs, j + 1) == KeyAt(rest, j);
        }
      }
    }
  }

  // What passes the check, entry by entry.
  lemma {:induction false} UniqueKeys(pairs: Pairs, seen: set<nat>)
    ensures PairsOk(pairs, seen) <==> Unique(pairs, seen)
    decreases pairs
  {
    if pairs.Pairs? {
      UniqueFirst(pairs, seen);
      if pairs.key.UInt? {
        UniqueKeys(pairs.rest, if pairs.key.v < 64 then seen + {pairs.key.v} else seen);
      }
    }
  }

  // In a map that passed the check, the lookup of a key below 64 succeeds exactly when there is an entry, and stands
  // at that entry's value: its only one, wherever it is in the map.
  lemma LookupIsOnly(c: Cursor, pairs: Pairs, key: nat, value: Item)
    requires Holds(c, Dict(pairs)) && KeysUnique(c) && key < 64
    ensures Entry(pairs, key, value) <==> FindPairOf(c, pairs, key) == Some(value)
    ensures Find(c, key).Some? <==> FindPairOf(c, pairs, key).Some?
    ensures Find(c, key).Some? ==> Holds(Find(c, key).value, FindPairOf(c, pairs, key).value)
  {
    hide Find, Holds, KeysUnique;
    CheckedMap(c, pairs);
    OkKeys(pairs, {});
    FoundInMap(c, pairs, key);
    FoundIsEntry(pairs, key, value);
    if Entry(pairs, key, value) {
      OnlyEntry(pairs, {}, key, value);
    }
  }

  ghost function FindPairOf(c: Cursor, pairs: Pairs, key: nat): Option<Item>
    requires Holds(c, Dict(pairs)) && KeysUnique(c)
  {
    CheckedMap(c, pairs);
    OkKeys(pairs, {});
    FindPair(pairs, key)
  }

  // Two checked maps with the same entries answer alike, in whatever order the entries stand.
  lemma OrderIrrelevant(c: Cursor, p: Pairs, d: Cursor, q: Pairs, key: nat)
    requires Holds(c, Dict(p)) && Holds(d, Dict(q)) && KeysUnique(c) && KeysUnique(d) && key < 64
    requires forall v :: Entry(p, key, v) <==> Entry(q, key, v)
    ensures Find(c, key).Some? <==> Find(d, key).Some?
    ensures Find(c, key).Some? ==>
              exists v :: Entry(p, key, v) && Holds(Find(c, key).value, v) && Holds(Find(d, key).value, v)
  {
    hide Find, Holds, KeysUnique, Entry;
    if FindPairOf(c, p, key).Some? {
      var v := FindPairOf(c, p, key).value;
      LookupIsOnly(c, p, key, v);
      LookupIsOnly(d, q, key, v);
    } else if FindPairOf(d, q, key).Some? {
      var v := FindPairOf(d, q, key).value;
      LookupIsOnly(d, q, key, v);
      LookupIsOnly(c, p, key, v);
    } else {
      LookupIsOnly(c, p, key, UInt(0));
      LookupIsOnly(d, q, key, UInt(0));
    }
  }

  // ---------------------------------------------------------------- reading from where an item is

  lemma HoldsFirst(c: Cursor, item: Item)
    requires Holds(c, item)
    ensures First(c) == Some(Tokens(item)[0])
  {
    assert c.toks[..|Tokens(item)|][0] == c.toks[0];
  }

  lemma HoldsUntagged(c: Cursor, tag: nat, content: Item)
    requires Holds(c, Tagged(tag, content))
    ensures IsTag(c) && c.toks[0].tag == tag && AdvanceFixed(c).Some? && Holds(AdvanceFixed(c).value, content)
  {
    var rest := HoldsSplit(c, Tagged(tag, content));
    assert c.toks[1..] == Tokens(content) + rest;
    HoldsFrom(content, rest, c.remaining);
  }
}
