// TINFL_HUFF_DECODE of libjade/miniz.c: one symbol through the fast lookup and the overflow tree. Whatever the bits,
// the tables do what reading bit by bit does; where no code starts the bits, it is stated what they do.
module InflateLookup {
  import opened Bits
  import opened CanonicalCode
  import opened InflateTables
  import opened InflateSymbols

  // How far the tree follows bits that start no symbol.
  ghost function Missed(sizes: seq<nat>, bits: nat, d: nat): (n: nat)
    requires d <= 15
    ensures d <= n <= 15
    decreases 15 - d
  {
    if d < 15 && Inner(sizes, |sizes|, Prefix(bits, d)) then Missed(sizes, bits, d + 1) else d
  }

  // The symbol whose code starts the bits, and its length; without one, symbol 0 and the bits followed in vain.
  ghost function Decoded(sizes: seq<nat>, bits: nat): (r: (nat, nat))
    ensures r.1 <= 15 && (sizes != [] ==> r.0 < |sizes|) && (r.0 > 0 ==> r.1 > 0)
  {
    var plain := PlainDecode(sizes, bits, 1);
    if plain.1 < 16 then plain
    else if Inner(sizes, |sizes|, Prefix(bits, FAST_BITS)) then (0, Missed(sizes, bits, FAST_BITS))
    else (0, 0)
  }

  lemma {:induction false} PlainSound(sizes: seq<nat>, bits: nat, len: nat)
    requires Fits(sizes) && 1 <= len <= 16 && PlainDecode(sizes, bits, len).1 < 16
    ensures Starts(sizes, PlainDecode(sizes, bits, len).0, bits)
    decreases 16 - len
  {
    var code := Reverse(bits, len);
    if FirstCode(sizes, len) <= code < FirstCode(sizes, len) + Count(sizes, len) {
      StartsIsCode(sizes, Ranked(sizes, |sizes|, len, code - FirstCode(sizes, len)), bits);
    } else {
      PlainSound(sizes, bits, len + 1);
    }
  }

  // A started symbol is the one decoded; with none, the plain decoder finds none.
  lemma DecodedIs(sizes: seq<nat>, bits: nat)
    requires Fits(sizes)
    ensures forall s: nat :: Starts(sizes, s, bits) ==>
                               Decoded(sizes, bits) == PlainDecode(sizes, bits, 1) == (s, sizes[s])
    ensures (forall s: nat :: !Starts(sizes, s, bits)) ==> PlainDecode(sizes, bits, 1).1 == 16
  {
    hide PlainDecode, Missed, Inner;
    forall s: nat | Starts(sizes, s, bits) ensures PlainDecode(sizes, bits, 1) == (s, sizes[s]) {
      PlainDecodesStart(sizes, s, bits);
    }
    if PlainDecode(sizes, bits, 1).1 < 16 {
      PlainSound(sizes, bits, 1);
    }
  }

  // ---------------------------------------------------------------- nodes and the bits that lead to them

  // A started symbol's code passes through inner nodes and ends at its leaf.
  lemma OnTheWay(sizes: seq<nat>, s: nat, bits: nat, d: nat)
    requires Fits(sizes) && Starts(sizes, s, bits)
    ensures FAST_BITS <= d < sizes[s] ==> Inner(sizes, |sizes|, Prefix(bits, d))
    ensures d == sizes[s] ==> Leaf(sizes, s, Prefix(bits, d)) && !Inner(sizes, |sizes|, Prefix(bits, d))
  {
    if d < sizes[s] {
      LowLow(bits, d, sizes[s]);
    } else if d == sizes[s] {
      LeafIsNotInner(sizes, s, |sizes|);
    }
  }

  lemma {:induction false} MissedIs(sizes: seq<nat>, s: nat, bits: nat, d: nat)
    requires Fits(sizes) && Starts(sizes, s, bits) && FAST_BITS <= d <= sizes[s]
    ensures Missed(sizes, bits, d) == sizes[s]
    decreases sizes[s] - d
  {
    hide Inner;
    OnTheWay(sizes, s, bits, d);
    if d < sizes[s] {
      MissedIs(sizes, s, bits, d + 1);
    }
  }

  // The allocated slots are exactly the inner nodes.
  lemma SlotIffInner(sizes: seq<nat>, slots: seq<Node>, node: Node)
    requires SlotsOk(sizes, |sizes|, slots) && Grown(sizes, |sizes|, slots)
    ensures node in slots <==> Inner(sizes, |sizes|, node)
  {
    if Inner(sizes, |sizes|, node) {
      var s :| 0 <= s < |sizes| && Used(sizes, s) && node.0 < sizes[s] && Low(Wire(sizes, s), node.0) == node.1;
      assert PathOpen(sizes, s, sizes[s], slots);
      assert Prefix(Wire(sizes, s), node.0) in slots;
    }
  }

  // The lookup entry for some bits: a short symbol, the link to a node, or nothing.
  lemma LookupEntry(sizes: seq<nat>, lookup: seq<int>, slots: seq<Node>, bits: nat)
    requires Fits(sizes) && LookupOk(sizes, |sizes|, lookup, slots) && Grown(sizes, |sizes|, slots)
    requires SlotsOk(sizes, |sizes|, slots)
    ensures var r, node := Low(bits, FAST_BITS), Prefix(bits, FAST_BITS);
            && r < FAST_SIZE == |lookup|
            && (lookup[r] < 0 ==> Links(lookup[r], slots, node) && Inner(sizes, |sizes|, node))
            && (lookup[r] == 0 ==> !Inner(sizes, |sizes|, node) && forall s: nat :: !Starts(sizes, s, bits))
            && (lookup[r] > 0 ==> exists s: nat :: Starts(sizes, s, bits) && lookup[r] == 512 * sizes[s] + s)
  {
    hide SlotsOk, Grown;
    var r, node := Low(bits, FAST_BITS), Prefix(bits, FAST_BITS);
    Pow2Values();
    assert LookupCell(sizes, |sizes|, slots, r, lookup[r]);
    SlotIffInner(sizes, slots, node);
    if lookup[r] != 0 && node !in slots {
      var s :| 0 <= s < |sizes| && ShortHit(sizes, s, r);
      LowLow(bits, sizes[s], FAST_BITS);
    }
    forall s: nat | Starts(sizes, s, bits) ensures lookup[r] != 0 {
      if sizes[s] <= FAST_BITS {
        LowLow(bits, sizes[s], FAST_BITS);
        assert ShortHit(sizes, s, r);
      } else {
        OnTheWay(sizes, s, bits, FAST_BITS);
      }
    }
  }

  // The tree cell one bit further: the link to a node, a symbol that ends there, or nothing.
  lemma TreeEntry(sizes: seq<nat>, tree: seq<int>, slots: seq<Node>, bits: nat, k: nat, d: nat)
    requires Fits(sizes) && TreeOk(sizes, |sizes|, tree, slots) && SlotsOk(sizes, |sizes|, slots)
    requires Grown(sizes, |sizes|, slots) && k < |slots| && slots[k] == Prefix(bits, d)
    ensures var i, next := 2 * k + Shr(bits, d) % 2, Prefix(bits, d + 1);
            && i < |tree|
            && (tree[i] < 0 <==> Inner(sizes, |sizes|, next))
            && (tree[i] < 0 ==> Links(tree[i], slots, next))
            && (forall s: nat :: Leaf(sizes, s, next) ==> tree[i] == s)
            && (tree[i] > 0 ==> Leaf(sizes, tree[i], next))
  {
    hide SlotsOk, Grown;
    var i, next := 2 * k + Shr(bits, d) % 2, Prefix(bits, d + 1);
    PrefixChild(bits, d);
    assert i / 2 == k && i % 2 == Shr(bits, d) % 2;
    assert CellNode(slots, i) == next;
    assert TreeCell(sizes, |sizes|, slots, next, tree[i]);
    SlotIffInner(sizes, slots, next);
  }

  lemma InnerDeep(sizes: seq<nat>, bits: nat, d: nat)
    requires Fits(sizes) && Inner(sizes, |sizes|, Prefix(bits, d))
    ensures d < 15
  {
  }

  // ---------------------------------------------------------------- the macro

  // Down the tree, one bit at a time, to the first cell that links no further.
  method WalkTree(ghost sizes: seq<nat>, tree: array<int>, ghost slots: seq<Node>, bits: nat, from: int)
    returns (temp: int, codeLen: nat)
    requires Fits(sizes) && TreeOk(sizes, |sizes|, tree[..], slots) && SlotsOk(sizes, |sizes|, slots)
    requires Grown(sizes, |sizes|, slots) && Links(from, slots, Prefix(bits, FAST_BITS))
    ensures temp >= 0 && codeLen == Missed(sizes, bits, FAST_BITS)
    ensures forall s: nat :: Leaf(sizes, s, Prefix(bits, codeLen)) ==> temp == s
    ensures temp > 0 ==> Leaf(sizes, temp, Prefix(bits, codeLen))
  {
    hide Inner, TreeOk, SlotsOk, Grown, Leaf;
    temp, codeLen := from, FAST_BITS;
    ghost var k: nat := FindSlot(slots, from, Prefix(bits, FAST_BITS));
    while true
      invariant FAST_BITS <= codeLen <= 15 && k < |slots| && temp == -(2 * k + 1) && slots[k] == Prefix(bits, codeLen)
      invariant Missed(sizes, bits, codeLen) == Missed(sizes, bits, FAST_BITS)
      decreases 15 - codeLen
    {
      SlotIffInner(sizes, slots, Prefix(bits, codeLen));
      InnerDeep(sizes, bits, codeLen);
      TreeEntry(sizes, tree[..], slots, bits, k, codeLen);
      temp, codeLen := tree[-temp - 1 + Shr(bits, codeLen) % 2], codeLen + 1;
      if temp >= 0 {
        break;
      }
      k := FindSlot(slots, temp, Prefix(bits, codeLen));
    }
  }

  // Decode one symbol, whatever the bits.
  method HuffDecode(ghost sizes: seq<nat>, lookup: array<int>, tree: array<int>, ghost slots: seq<Node>, bits: nat)
    returns (sym: nat, codeLen: nat)
    requires Fits(sizes) && |sizes| <= 512 && Tables(sizes, |sizes|, lookup[..], tree[..], slots)
    ensures (sym, codeLen) == Decoded(sizes, bits)
  {
    hide PlainDecode, Missed, TreeOk, SlotsOk, Grown, Inner, LookupOk;
    DecodedIs(sizes, bits);
    LookupEntry(sizes, lookup[..], slots, bits);
    var temp := lookup[Low(bits, FAST_BITS)];
    if temp >= 0 {
      if temp > 0 {
        ghost var s: nat :| Starts(sizes, s, bits) && temp == 512 * sizes[s] + s;
        SplitEntry(sizes[s], s);
      }
      codeLen := temp / 512;
      sym := temp % 512;
    } else {
      temp, codeLen := WalkTree(sizes, tree, slots, bits, temp);
      sym := temp;
      TreeDecodes(sizes, lookup[..], slots, bits, sym, codeLen);
    }
  }

  // What the tree walk ends with is what the bits mean.
  lemma TreeDecodes(sizes: seq<nat>, lookup: seq<int>, slots: seq<Node>, bits: nat, sym: nat, codeLen: nat)
    requires Fits(sizes) && Inner(sizes, |sizes|, Prefix(bits, FAST_BITS))
    requires codeLen == Missed(sizes, bits, FAST_BITS)
    requires forall s: nat :: Leaf(sizes, s, Prefix(bits, codeLen)) ==> sym == s
    requires sym > 0 ==> Leaf(sizes, sym, Prefix(bits, codeLen))
    ensures (sym, codeLen) == Decoded(sizes, bits)
  {
    hide PlainDecode, Missed, Inner, Decoded;
    DecodedIs(sizes, bits);
    if s: nat :| Starts(sizes, s, bits) {
      if sizes[s] <= FAST_BITS {
        ShortNotInner(sizes, s, bits);
      }
      MissedIs(sizes, s, bits, FAST_BITS);
      OnTheWay(sizes, s, bits, sizes[s]);
    } else {
      assert sym > 0 ==> Starts(sizes, sym, bits);
      DecodedMiss(sizes, bits);
    }
  }

  lemma DecodedMiss(sizes: seq<nat>, bits: nat)
    requires PlainDecode(sizes, bits, 1).1 == 16 && Inner(sizes, |sizes|, Prefix(bits, FAST_BITS))
    ensures Decoded(sizes, bits) == (0, Missed(sizes, bits, FAST_BITS))
  {
  }

  // No code goes on past another that has ended.
  lemma ShortNotInner(sizes: seq<nat>, s: nat, bits: nat)
    requires Fits(sizes) && Starts(sizes, s, bits) && sizes[s] <= FAST_BITS
    ensures !Inner(sizes, |sizes|, Prefix(bits, FAST_BITS))
  {
    var node := Prefix(bits, FAST_BITS);
    if Inner(sizes, |sizes|, node) {
      var t :| 0 <= t < |sizes| && Used(sizes, t) && node.0 < sizes[t] && Low(Wire(sizes, t), node.0) == node.1;
      var w := Wire(sizes, t);
      WireStartsItself(sizes, t);
      LowLow(w, sizes[s], FAST_BITS);
      LowLow(bits, sizes[s], FAST_BITS);
      assert Starts(sizes, s, w);
      PrefixFree(sizes, s, t, w);
    }
  }

  lemma SplitEntry(size: nat, s: nat)
    requires s < 512
    ensures (512 * size + s) / 512 == size && (512 * size + s) % 512 == s
  {
  }

  // With a complete code every bit string is decoded to a symbol whose code starts it.
  lemma CompleteDecodes(sizes: seq<nat>, bits: nat)
    requires Complete(sizes)
    ensures Decoded(sizes, bits) == PlainDecode(sizes, bits, 1)
    ensures Starts(sizes, Decoded(sizes, bits).0, bits) && Decoded(sizes, bits).1 == sizes[Decoded(sizes, bits).0]
  {
    hide PlainDecode, Decoded;
    var s := CompleteCovers(sizes, bits, 1);
    DecodedIs(sizes, bits);
  }
}
