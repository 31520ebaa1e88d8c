// Building the decoder's tables from code lengths and decoding one symbol with them, as
// tinfl_decompress() does in libjade/miniz.c.
module InflateDecoder {
  import opened Bits
  import opened CanonicalCode
  import opened InflateTables

  // ---------------------------------------------------------------- preservation of the tables

  lemma TreeCellStays(sizes: seq<nat>, n: nat, slots: seq<Node>, c: Node, node: Node, v: int)
    requires TreeCell(sizes, n, slots, node, v) && node != c
    ensures TreeCell(sizes, n, slots + [c], node, v)
  {
    if node in slots {
      var k :| 0 <= k < |slots| && v == -(2 * k + 1) && slots[k] == node;
      assert (slots + [c])[k] == node;
    }
  }

  lemma LookupCellStays(sizes: seq<nat>, n: nat, slots: seq<Node>, c: Node, r: nat, v: int)
    requires LookupCell(sizes, n, slots, r, v) && (FAST_BITS, r) != c
    ensures LookupCell(sizes, n, slots + [c], r, v)
  {
    if (FAST_BITS, r) in slots {
      var k :| 0 <= k < |slots| && v == -(2 * k + 1) && slots[k] == (FAST_BITS, r);
      assert (slots + [c])[k] == (FAST_BITS, r);
    }
  }

  // A leaf that is in has its parent among the slots.
  lemma LeafParent(sizes: seq<nat>, n: nat, slots: seq<Node>, t: nat, c: Node, bit: nat)
    requires Grown(sizes, n, slots) && 0 <= t < n && bit < 2
    requires FAST_BITS <= c.0 && c.1 < Pow2(c.0) && Leaf(sizes, t, Child(c, bit))
    ensures c in slots
  {
    LowAddTop(c.1, c.0, bit);
    assert PathOpen(sizes, t, sizes[t], slots);
    assert Prefix(Wire(sizes, t), c.0) == c;
  }

  // The two cells of a freshly allocated node are rightly empty.
  lemma FreshCell(sizes: seq<nat>, n: nat, m: nat, slots: seq<Node>, c: Node, bit: nat)
    requires SlotsOk(sizes, m, slots) && Grown(sizes, n, slots)
    requires c !in slots && FAST_BITS <= c.0 && c.1 < Pow2(c.0) && bit < 2
    ensures TreeCell(sizes, n, slots + [c], Child(c, bit), 0)
  {
    var node := Child(c, bit);
    ChildParent(c, bit);
    assert node in slots ==> Rooted(slots, node);
    forall t | 0 <= t < n && Leaf(sizes, t, node) ensures false {
      LeafParent(sizes, n, slots, t, c, bit);
    }
  }

  // Everything that holds while symbol `n` is being threaded into the tree.
  ghost predicate Growing(sizes: seq<nat>, n: nat, lookup: seq<int>, tree: seq<int>, slots: seq<Node>) {
    && LookupOk(sizes, n, lookup, slots)
    && TreeOk(sizes, n, tree, slots)
    && SlotsOk(sizes, n + 1, slots)
    && Grown(sizes, n, slots)
  }

  lemma SlotsWiden(sizes: seq<nat>, n: nat, slots: seq<Node>)
    requires SlotsOk(sizes, n, slots)
    ensures SlotsOk(sizes, n + 1, slots)
  {
    forall k | 0 <= k < |slots| ensures Inner(sizes, n + 1, slots[k]) {
      var node := slots[k];
      assert Inner(sizes, n, node);
      var s :| 0 <= s < n && Used(sizes, s) && node.0 < sizes[s] && Low(Wire(sizes, s), node.0) == node.1;
      assert 0 <= s < n + 1;
    }
  }

  lemma SlotsExtend(sizes: seq<nat>, n: nat, slots: seq<Node>, d: nat)
    requires SlotsOk(sizes, n + 1, slots)
    requires Used(sizes, n) && FAST_BITS <= d < sizes[n]
    requires Prefix(Wire(sizes, n), d) !in slots
    requires d > FAST_BITS ==> Prefix(Wire(sizes, n), d - 1) in slots
    ensures SlotsOk(sizes, n + 1, slots + [Prefix(Wire(sizes, n), d)])
  {
    var c := Prefix(Wire(sizes, n), d);
    assert Inner(sizes, n + 1, c);
    if d > FAST_BITS {
      PrefixChild(Wire(sizes, n), d - 1);
    }
    SlotsAppend(sizes, n + 1, slots, c);
  }

  lemma SlotsAppend(sizes: seq<nat>, m: nat, slots: seq<Node>, c: Node)
    requires SlotsOk(sizes, m, slots) && Inner(sizes, m, c) && c !in slots
    requires c.0 > FAST_BITS ==> Parent(c) in slots
    ensures SlotsOk(sizes, m, slots + [c])
  {
    var more := slots + [c];
    forall node | node in more ensures Rooted(more, node) {
      assert Rooted(slots, node);
    }
  }

  lemma GrownExtend(sizes: seq<nat>, n: nat, slots: seq<Node>, c: Node)
    requires Grown(sizes, n, slots)
    ensures Grown(sizes, n, slots + [c])
  {
    forall s | 0 <= s < n && Used(sizes, s) ensures PathOpen(sizes, s, sizes[s], slots + [c]) {
      assert PathOpen(sizes, s, sizes[s], slots);
    }
  }

  // A nonzero lookup cell on a long symbol's path is a link to its depth-10 node.
  lemma RootCell(sizes: seq<nat>, n: nat, lookup: seq<int>, slots: seq<Node>)
    requires Fits(sizes) && LookupOk(sizes, n, lookup, slots) && Used(sizes, n) && sizes[n] > FAST_BITS
    ensures var r := Low(Wire(sizes, n), FAST_BITS);
            0 <= r < FAST_SIZE && (lookup[r] != 0 <==> (FAST_BITS, r) in slots) &&
            forall t :: 0 <= t < n ==> !ShortHit(sizes, t, r)
  {
    Pow2Values();
    var w := Wire(sizes, n);
    var r := Low(w, FAST_BITS);
    assert LookupCell(sizes, n, slots, r, lookup[r]);
    forall t | 0 <= t < n ensures !ShortHit(sizes, t, r) {
      if ShortHit(sizes, t, r) {
        LowLow(w, sizes[t], FAST_BITS);
        WireStartsItself(sizes, n);
        PrefixFree(sizes, t, n, w);
      }
    }
  }

  lemma AllocateRoot(sizes: seq<nat>, n: nat, lookup: seq<int>, tree: seq<int>, slots: seq<Node>)
    requires Fits(sizes) && Growing(sizes, n, lookup, tree, slots) && Used(sizes, n) && sizes[n] > FAST_BITS
    requires 2 * |slots| + 2 <= |tree|
    requires var r := Low(Wire(sizes, n), FAST_BITS); r < FAST_SIZE && lookup[r] == 0
    ensures var r := Low(Wire(sizes, n), FAST_BITS);
            Growing(sizes, n, lookup[r := -(2 * |slots| + 1)], tree, slots + [(FAST_BITS, r)])
  {
    var r := Low(Wire(sizes, n), FAST_BITS);
    var c := (FAST_BITS, r);
    RootCell(sizes, n, lookup, slots);
    SlotsExtend(sizes, n, slots, FAST_BITS);
    GrownExtend(sizes, n, slots, c);
    var more := slots + [c];
    var lookup' := lookup[r := -(2 * |slots| + 1)];
    forall q | 0 <= q < FAST_SIZE ensures LookupCell(sizes, n, more, q, lookup'[q]) {
      assert LookupCell(sizes, n, slots, q, lookup[q]);
      if q != r {
        LookupCellStays(sizes, n, slots, c, q, lookup[q]);
      } else {
        assert more[|slots|] == c;
      }
    }
    TreeExtend(sizes, n, tree, slots, c, tree, -1);
  }

  // Appending node `c` keeps every tree cell right, given the one cell (if any) that stands for `c`.
  lemma TreeExtend(sizes: seq<nat>, n: nat, tree: seq<int>, slots: seq<Node>, c: Node, tree': seq<int>, cell: int)
    requires TreeOk(sizes, n, tree, slots) && SlotsOk(sizes, n + 1, slots) && Grown(sizes, n, slots)
    requires c !in slots && FAST_BITS <= c.0 && c.1 < Pow2(c.0)
    requires |tree'| == |tree| && 2 * |slots| + 2 <= |tree| && cell < 2 * |slots|
    requires forall i :: 0 <= i < |tree| && i != cell ==> tree'[i] == tree[i]
    requires forall i :: 0 <= i < 2 * |slots| && i != cell ==> CellNode(slots, i) != c
    requires 0 <= cell ==> TreeCell(sizes, n, slots + [c], CellNode(slots, cell), tree'[cell])
    ensures TreeOk(sizes, n, tree', slots + [c])
  {
    var more := slots + [c];
    forall i | 0 <= i < 2 * |more| ensures TreeCell(sizes, n, more, CellNode(more, i), tree'[i]) {
      if i / 2 == |slots| {
        FreshCell(sizes, n, n + 1, slots, c, i % 2);
      } else {
        assert more[i / 2] == slots[i / 2];
        if i != cell {
          TreeCellStays(sizes, n, slots, c, CellNode(slots, i), tree[i]);
        }
      }
    }
  }

  // The cell for the next bit of symbol `n` stands for its next prefix.
  lemma CellIsPrefix(sizes: seq<nat>, n: nat, slots: seq<Node>, k: nat, d: nat)
    requires Used(sizes, n) && k < |slots| && slots[k] == Prefix(Wire(sizes, n), d)
    ensures CellNode(slots, 2 * k + Shr(Wire(sizes, n), d) % 2) == Prefix(Wire(sizes, n), d + 1)
  {
    PrefixChild(Wire(sizes, n), d);
    assert (2 * k + Shr(Wire(sizes, n), d) % 2) / 2 == k;
  }

  // A nonzero tree cell on the way to a longer symbol is a link to its next node.
  lemma InnerCell(sizes: seq<nat>, n: nat, tree: seq<int>, slots: seq<Node>, i: nat, e: nat)
    requires Fits(sizes) && TreeOk(sizes, n, tree, slots) && Used(sizes, n) && e < sizes[n]
    requires i < 2 * |slots| && CellNode(slots, i) == Prefix(Wire(sizes, n), e)
    ensures TreeCell(sizes, n, slots, Prefix(Wire(sizes, n), e), tree[i])
    ensures tree[i] != 0 <==> Prefix(Wire(sizes, n), e) in slots
    ensures forall t :: 0 <= t < n ==> !Leaf(sizes, t, Prefix(Wire(sizes, n), e))
  {
    var c := Prefix(Wire(sizes, n), e);
    forall t | 0 <= t < n ensures !Leaf(sizes, t, c) {
      NoLeafInside(sizes, n, t, e);
    }
    assert TreeCell(sizes, n, slots, CellNode(slots, i), tree[i]);
  }

  // Different cells stand for different nodes.
  lemma OnlyCell(sizes: seq<nat>, m: nat, slots: seq<Node>, i: nat, j: nat)
    requires SlotsOk(sizes, m, slots) && i < 2 * |slots| && j < 2 * |slots|
    requires CellNode(slots, i) == CellNode(slots, j)
    ensures i == j
  {
    var a, b := slots[i / 2], slots[j / 2];
    assert Inner(sizes, m, a) && Inner(sizes, m, b);
    ChildParent(a, i % 2);
    ChildParent(b, j % 2);
    assert a == b && i / 2 == j / 2;
    assert i % 2 == j % 2;
  }

  lemma AllocateInner(sizes: seq<nat>, n: nat, lookup: seq<int>, tree: seq<int>, slots: seq<Node>, i: nat, e: nat)
    requires Fits(sizes) && Growing(sizes, n, lookup, tree, slots) && Used(sizes, n)
    requires FAST_BITS < e < sizes[n] && Prefix(Wire(sizes, n), e - 1) in slots
    requires i < 2 * |slots| && CellNode(slots, i) == Prefix(Wire(sizes, n), e)
    requires 2 * |slots| + 2 <= |tree| && tree[i] == 0
    ensures Growing(sizes, n, lookup, tree[i := -(2 * |slots| + 1)], slots + [Prefix(Wire(sizes, n), e)])
  {
    var c := Prefix(Wire(sizes, n), e);
    InnerCell(sizes, n, tree, slots, i, e);
    assert SlotsOk(sizes, n + 1, slots + [c]) by { SlotsExtend(sizes, n, slots, e); }
    assert Grown(sizes, n, slots + [c]) by { GrownExtend(sizes, n, slots, c); }
    assert LookupOk(sizes, n, lookup, slots + [c]) by { LookupExtend(sizes, n, lookup, slots, c); }
    assert TreeOk(sizes, n, tree[i := -(2 * |slots| + 1)], slots + [c]) by { LinkCell(sizes, n, tree, slots, c, i); }
  }

  lemma LookupExtend(sizes: seq<nat>, n: nat, lookup: seq<int>, slots: seq<Node>, c: Node)
    requires LookupOk(sizes, n, lookup, slots) && c.0 > FAST_BITS
    ensures LookupOk(sizes, n, lookup, slots + [c])
  {
    forall r | 0 <= r < FAST_SIZE ensures LookupCell(sizes, n, slots + [c], r, lookup[r]) {
      LookupCellStays(sizes, n, slots, c, r, lookup[r]);
    }
  }

  // Linking an empty cell to the node it stands for.
  lemma LinkCell(sizes: seq<nat>, n: nat, tree: seq<int>, slots: seq<Node>, c: Node, i: nat)
    requires TreeOk(sizes, n, tree, slots) && SlotsOk(sizes, n + 1, slots) && Grown(sizes, n, slots)
    requires c !in slots && FAST_BITS <= c.0 && c.1 < Pow2(c.0)
    requires i < 2 * |slots| && CellNode(slots, i) == c && 2 * |slots| + 2 <= |tree|
    requires forall t :: 0 <= t < n ==> !Leaf(sizes, t, c)
    ensures TreeOk(sizes, n, tree[i := -(2 * |slots| + 1)], slots + [c])
  {
    forall j | 0 <= j < 2 * |slots| && j != i ensures CellNode(slots, j) != c {
      if CellNode(slots, j) == c {
        OnlyCell(sizes, n + 1, slots, i, j);
      }
    }
    assert (slots + [c])[|slots|] == c;
    assert TreeCell(sizes, n, slots + [c], c, -(2 * |slots| + 1));
    TreeExtend(sizes, n, tree, slots, c, tree[i := -(2 * |slots| + 1)], i);
  }

  // Writing the symbol into its last cell completes the tables for one more symbol.
  lemma PlaceLeaf(sizes: seq<nat>, n: nat, lookup: seq<int>, tree: seq<int>, slots: seq<Node>, i: nat)
    requires Fits(sizes) && Growing(sizes, n, lookup, tree, slots) && Used(sizes, n) && sizes[n] > FAST_BITS
    requires i < 2 * |slots| && CellNode(slots, i) == (sizes[n], Wire(sizes, n))
    requires PathOpen(sizes, n, sizes[n], slots)
    ensures Tables(sizes, n + 1, lookup, tree[i := n], slots)
  {
    assert TreeOk(sizes, n + 1, tree[i := n], slots) by { PlaceLeafInTree(sizes, n, tree, slots, i); }
    forall r | 0 <= r < FAST_SIZE ensures LookupCell(sizes, n + 1, slots, r, lookup[r]) {
      LookupNext(sizes, n, slots, r, lookup[r]);
    }
  }

  lemma PlaceLeafInTree(sizes: seq<nat>, n: nat, tree: seq<int>, slots: seq<Node>, i: nat)
    requires Fits(sizes) && TreeOk(sizes, n, tree, slots) && SlotsOk(sizes, n + 1, slots)
    requires Used(sizes, n) && i < 2 * |slots| && CellNode(slots, i) == (sizes[n], Wire(sizes, n))
    ensures TreeOk(sizes, n + 1, tree[i := n], slots)
  {
    forall j | 0 <= j < 2 * |slots|
      ensures TreeCell(sizes, n + 1, slots, CellNode(slots, j), tree[i := n][j])
    {
      if j == i {
        LeafCell(sizes, n, slots);
      } else {
        if CellNode(slots, j) == CellNode(slots, i) {
          OnlyCell(sizes, n + 1, slots, i, j);
        }
        CellNext(sizes, n, slots, CellNode(slots, j), tree[j]);
      }
    }
  }

  lemma LeafCell(sizes: seq<nat>, n: nat, slots: seq<Node>)
    requires Fits(sizes) && SlotsOk(sizes, n + 1, slots) && Used(sizes, n)
    ensures TreeCell(sizes, n + 1, slots, (sizes[n], Wire(sizes, n)), n)
  {
    var leaf := (sizes[n], Wire(sizes, n));
    LeafIsNotInner(sizes, n, n + 1);
    assert leaf !in slots;
    assert Leaf(sizes, n, leaf);
    forall t | 0 <= t < n + 1 && Leaf(sizes, t, leaf) ensures t == n {
      LeafUnique(sizes, t, n, leaf);
    }
  }

  lemma CellNext(sizes: seq<nat>, n: nat, slots: seq<Node>, node: Node, v: int)
    requires TreeCell(sizes, n, slots, node, v) && !Leaf(sizes, n, node)
    ensures TreeCell(sizes, n + 1, slots, node, v)
  {
    if v != 0 && node !in slots {
      var s :| 0 <= s < n && Leaf(sizes, s, node);
      assert 0 <= s < n + 1;
    }
  }

  lemma LookupNext(sizes: seq<nat>, n: nat, slots: seq<Node>, r: nat, v: int)
    requires LookupCell(sizes, n, slots, r, v) && !ShortHit(sizes, n, r)
    ensures LookupCell(sizes, n + 1, slots, r, v)
  {
    if v != 0 && (FAST_BITS, r) !in slots {
      var s :| 0 <= s < n && ShortHit(sizes, s, r);
      assert 0 <= s < n + 1;
    }
  }

  // A symbol that is unused or short leaves the tree and the slots as they are.
  lemma TreeNext(sizes: seq<nat>, n: nat, tree: seq<int>, slots: seq<Node>)
    requires TreeOk(sizes, n, tree, slots) && SlotsOk(sizes, n, slots) && Grown(sizes, n, slots)
    requires Used(sizes, n) ==> sizes[n] <= FAST_BITS
    ensures TreeOk(sizes, n + 1, tree, slots) && SlotsOk(sizes, n + 1, slots) && Grown(sizes, n + 1, slots)
  {
    SlotsWiden(sizes, n, slots);
    forall i | 0 <= i < 2 * |slots| ensures TreeCell(sizes, n + 1, slots, CellNode(slots, i), tree[i]) {
      assert Inner(sizes, n, slots[i / 2]);
      CellNext(sizes, n, slots, CellNode(slots, i), tree[i]);
    }
  }

  lemma ShortFills(sizes: seq<nat>, n: nat, lookup: seq<int>, lookup': seq<int>, tree: seq<int>, slots: seq<Node>)
    requires Fits(sizes) && Tables(sizes, n, lookup, tree, slots) && Used(sizes, n) && sizes[n] <= FAST_BITS
    requires |lookup'| == FAST_SIZE
    requires forall r :: 0 <= r < FAST_SIZE ==>
                           lookup'[r] == if Low(r, sizes[n]) == Wire(sizes, n) then 512 * sizes[n] + n else lookup[r]
    ensures Tables(sizes, n + 1, lookup', tree, slots)
  {
    TreeNext(sizes, n, tree, slots);
    forall r | 0 <= r < FAST_SIZE ensures LookupCell(sizes, n + 1, slots, r, lookup'[r]) {
      assert LookupCell(sizes, n, slots, r, lookup[r]);
      if Low(r, sizes[n]) == Wire(sizes, n) {
        assert ShortHit(sizes, n, r);
        if (FAST_BITS, r) in slots {
          assert Inner(sizes, n, (FAST_BITS, r));
          var t :| 0 <= t < n && Used(sizes, t) && FAST_BITS < sizes[t] && Low(Wire(sizes, t), FAST_BITS) == r;
          LowLow(Wire(sizes, t), sizes[n], FAST_BITS);
          WireStartsItself(sizes, t);
          PrefixFree(sizes, n, t, Wire(sizes, t));
        }
        forall t | 0 <= t < n + 1 && ShortHit(sizes, t, r) ensures t == n {
          PrefixFree(sizes, n, t, r);
        }
      } else {
        LookupNext(sizes, n, slots, r, lookup[r]);
      }
    }
  }

  lemma UnusedSkips(sizes: seq<nat>, n: nat, lookup: seq<int>, tree: seq<int>, slots: seq<Node>)
    requires Tables(sizes, n, lookup, tree, slots) && n < |sizes| && sizes[n] == 0
    ensures Tables(sizes, n + 1, lookup, tree, slots)
  {
    TreeNext(sizes, n, tree, slots);
    forall r | 0 <= r < FAST_SIZE ensures LookupCell(sizes, n + 1, slots, r, lookup[r]) {
      LookupNext(sizes, n, slots, r, lookup[r]);
    }
  }
}
