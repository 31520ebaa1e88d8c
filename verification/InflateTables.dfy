// The decoder's Huffman tables in libjade/miniz.c: a 1024-entry fast lookup indexed by the next ten
// bits, and an overflow tree for longer codes grown in the order the symbols come.
module InflateTables {
  import opened Bits
  import opened CanonicalCode

  const FAST_BITS := 10
  const FAST_SIZE := 1024

  // An inner node of the code tree at depth 10 or more: its depth and the bits leading to it.
  type Node = (nat, nat)

  function Child(node: Node, bit: nat): Node {
    (node.0 + 1, node.1 + (if bit == 1 then Pow2(node.0) else 0))
  }

  function Parent(node: Node): Node
    requires node.0 > 0
  {
    (node.0 - 1, Low(node.1, node.0 - 1))
  }

  // The node reached after `depth` bits of `bits`.
  function Prefix(bits: nat, depth: nat): Node {
    (depth, Low(bits, depth))
  }

  // `v` is the negative link to the slot that holds `node`.
  ghost predicate Links(v: int, slots: seq<Node>, node: Node) {
    exists k :: 0 <= k < |slots| && v == -(2 * k + 1) && slots[k] == node
  }

  ghost predicate Leaf(sizes: seq<nat>, s: nat, node: Node) {
    Used(sizes, s) && sizes[s] == node.0 && Wire(sizes, s) == node.1
  }

  // What a tree cell holds once the first `n` symbols are in.
  ghost predicate TreeCell(sizes: seq<nat>, n: nat, slots: seq<Node>, node: Node, v: int) {
    && (node in slots ==> Links(v, slots, node))
    && (forall s :: 0 <= s < n && Leaf(sizes, s, node) ==> v == s)
    && (v != 0 ==> node in slots || exists s :: 0 <= s < n && Leaf(sizes, s, node))
  }

  ghost predicate ShortHit(sizes: seq<nat>, s: nat, r: nat) {
    Starts(sizes, s, r) && sizes[s] <= FAST_BITS
  }

  // What a lookup cell holds once the first `n` symbols are in.
  ghost predicate LookupCell(sizes: seq<nat>, n: nat, slots: seq<Node>, r: nat, v: int) {
    && ((FAST_BITS, r) in slots ==> Links(v, slots, (FAST_BITS, r)))
    && (forall s :: 0 <= s < n && ShortHit(sizes, s, r) ==> v == 512 * sizes[s] + s)
    && (v != 0 ==> (FAST_BITS, r) in slots || exists s :: 0 <= s < n && ShortHit(sizes, s, r))
  }

  ghost predicate LookupOk(sizes: seq<nat>, n: nat, lookup: seq<int>, slots: seq<Node>) {
    |lookup| == FAST_SIZE && forall r :: 0 <= r < FAST_SIZE ==> LookupCell(sizes, n, slots, r, lookup[r])
  }

  // The node a tree cell stands for: cells 2k and 2k+1 are the two children of slot k.
  function CellNode(slots: seq<Node>, i: nat): Node
    requires i < 2 * |slots|
  {
    Child(slots[i / 2], i % 2)
  }

  ghost predicate TreeOk(sizes: seq<nat>, n: nat, tree: seq<int>, slots: seq<Node>) {
    && 2 * |slots| <= |tree|
    && (forall i :: 0 <= i < 2 * |slots| ==> TreeCell(sizes, n, slots, CellNode(slots, i), tree[i]))
    && (forall i :: 2 * |slots| <= i < |tree| ==> tree[i] == 0)
  }

  // A slot is a proper prefix, ten bits or longer, of one of the first `n` symbols.
  ghost predicate Inner(sizes: seq<nat>, n: nat, node: Node) {
    && FAST_BITS <= node.0
    && exists s :: 0 <= s < n && Used(sizes, s) && node.0 < sizes[s] && Low(Wire(sizes, s), node.0) == node.1
  }

  ghost predicate SlotsOk(sizes: seq<nat>, n: nat, slots: seq<Node>) {
    && (forall k :: 0 <= k < |slots| ==> Inner(sizes, n, slots[k]))
    && (forall j, k :: 0 <= j < k < |slots| ==> slots[j] != slots[k])
    && (forall node {:trigger Rooted(slots, node)} :: node in slots ==> Rooted(slots, node))
  }

  ghost predicate Rooted(slots: seq<Node>, node: Node) {
    node.0 > FAST_BITS ==> Parent(node) in slots
  }

  // Every long symbol among the first `n` has all its inner nodes allocated.
  ghost predicate Grown(sizes: seq<nat>, n: nat, slots: seq<Node>) {
    forall s :: 0 <= s < n && Used(sizes, s) ==> PathOpen(sizes, s, sizes[s], slots)
  }

  // The inner nodes of symbol `s` below depth `d` are allocated.
  ghost predicate PathOpen(sizes: seq<nat>, s: nat, d: nat, slots: seq<Node>)
    requires Used(sizes, s)
  {
    forall e :: FAST_BITS <= e < d ==> Prefix(Wire(sizes, s), e) in slots
  }

  ghost predicate Tables(sizes: seq<nat>, n: nat, lookup: seq<int>, tree: seq<int>, slots: seq<Node>) {
    && LookupOk(sizes, n, lookup, slots)
    && TreeOk(sizes, n, tree, slots)
    && SlotsOk(sizes, n, slots)
    && Grown(sizes, n, slots)
  }

  // ---------------------------------------------------------------- nodes and prefixes

  lemma PrefixChild(bits: nat, d: nat)
    ensures Prefix(bits, d + 1) == Child(Prefix(bits, d), Shr(bits, d) % 2)
    ensures Parent(Prefix(bits, d + 1)) == Prefix(bits, d)
  {
    LowTop(bits, d);
    LowLow(bits, d, d + 1);
  }

  lemma {:induction false} LowAddTop(x: nat, d: nat, bit: nat)
    requires x < Pow2(d) && bit < 2
    ensures Low(x + (if bit == 1 then Pow2(d) else 0), d) == x
  {
    if d > 0 {
      var top, half := if bit == 1 then Pow2(d) else 0, if bit == 1 then Pow2(d - 1) else 0;
      LowAddTop(x / 2, d - 1, bit);
      assert top == 2 * half;
      assert (x + top) / 2 == x / 2 + half && (x + top) % 2 == x % 2;
    }
  }

  lemma ChildParent(node: Node, bit: nat)
    requires node.1 < Pow2(node.0) && bit < 2
    ensures Parent(Child(node, bit)) == node
  {
    LowAddTop(node.1, node.0, bit);
  }

  lemma NoLeafInside(sizes: seq<nat>, s: nat, t: nat, d: nat)
    requires Fits(sizes) && Used(sizes, s) && d < sizes[s]
    ensures !Leaf(sizes, t, Prefix(Wire(sizes, s), d))
  {
    if Leaf(sizes, t, Prefix(Wire(sizes, s), d)) {
      WireStartsItself(sizes, s);
      PrefixFree(sizes, s, t, Wire(sizes, s));
    }
  }

  lemma LeafUnique(sizes: seq<nat>, s: nat, t: nat, node: Node)
    requires Fits(sizes) && Leaf(sizes, s, node) && Leaf(sizes, t, node)
    ensures s == t
  {
    WireStartsItself(sizes, s);
    PrefixFree(sizes, s, t, node.1);
  }

  lemma LeafIsNotInner(sizes: seq<nat>, s: nat, n: nat)
    requires Fits(sizes) && Used(sizes, s)
    ensures !Inner(sizes, n, (sizes[s], Wire(sizes, s)))
  {
    var node := (sizes[s], Wire(sizes, s));
    if Inner(sizes, n, node) {
      var t :| 0 <= t < n && Used(sizes, t) && node.0 < sizes[t] && Low(Wire(sizes, t), node.0) == node.1;
      WireStartsItself(sizes, t);
      PrefixFree(sizes, s, t, Wire(sizes, t));
    }
  }

  // ---------------------------------------------------------------- the tree stays inside its array

  // The inner nodes a code can have at depth `d`: the values past every code of that length.
  function Level(d: nat, lo: nat, hi: nat): set<Node> {
    set v | lo <= v < hi :: (d, Reverse(v, d))
  }

  lemma {:induction false} LevelSize(d: nat, lo: nat, hi: nat)
    requires lo <= hi
    ensures |Level(d, lo, hi)| <= hi - lo
    decreases hi - lo
  {
    if lo < hi {
      LevelSize(d, lo, hi - 1);
      assert Level(d, lo, hi) == Level(d, lo, hi - 1) + {(d, Reverse(hi - 1, d))};
    } else {
      assert Level(d, lo, hi) == {};
    }
  }

  function InnerAt(sizes: seq<nat>, d: nat): set<Node> {
    Level(d, FirstCode(sizes, d) + Count(sizes, d), Pow2(d))
  }

  // A code cut to `d` bits is the reversal of a value beyond every code of length `d`.
  lemma CutValue(sizes: seq<nat>, s: nat, d: nat)
    requires Fits(sizes) && Used(sizes, s) && 1 <= d < sizes[s]
    ensures var v := Shr(Code(sizes, s), sizes[s] - d);
            FirstCode(sizes, d) + Count(sizes, d) <= v < Pow2(d) && Low(Wire(sizes, s), d) == Reverse(v, d)
  {
    hide Code, FirstCode, Count, Shr, Low, Reverse, Pow2, Fits;
    var len, code := sizes[s], Code(sizes, s);
    ReversePrefix(code, len, d);
    CodeFits(sizes, s);
    ShrBound(code, len - d, d);
    CodeRange(sizes, s);
    CutBeyond(sizes, code, d, len - d);
  }

  lemma InnerIsAtLevel(sizes: seq<nat>, n: nat, node: Node)
    requires Fits(sizes) && Inner(sizes, n, node)
    ensures 10 <= node.0 < 15 && node in InnerAt(sizes, node.0)
  {
    var d := node.0;
    var s :| 0 <= s < n && Used(sizes, s) && d < sizes[s] && Low(Wire(sizes, s), d) == node.1;
    CutValue(sizes, s, d);
    LevelHas(d, FirstCode(sizes, d) + Count(sizes, d), Pow2(d), Shr(Code(sizes, s), sizes[s] - d));
  }

  lemma LevelHas(d: nat, lo: nat, hi: nat, v: nat)
    requires lo <= v < hi
    ensures (d, Reverse(v, d)) in Level(d, lo, hi)
  {
  }

  // Codes of length `d` not yet taken; the next level splits each in two.
  function Open(sizes: seq<nat>, d: nat): int {
    Pow2(d) - FirstCode(sizes, d) - Count(sizes, d)
  }

  lemma OpenStep(sizes: seq<nat>, d: nat)
    requires d >= 1
    ensures Open(sizes, d + 1) == 2 * Open(sizes, d) - Count(sizes, d + 1)
  {
    assert FirstCode(sizes, d + 1) == 2 * (FirstCode(sizes, d) + Count(sizes, d));
  }

  lemma InnerAtSize(sizes: seq<nat>, d: nat)
    requires Fits(sizes) && 1 <= d <= 15
    ensures |InnerAt(sizes, d)| <= Open(sizes, d)
  {
    LengthFits(sizes, d);
    LevelSize(d, FirstCode(sizes, d) + Count(sizes, d), Pow2(d));
  }

  lemma UnionSize(a: set<Node>, b: set<Node>)
    ensures |a + b| <= |a| + |b|
  {
    assert a + b == a + (b - a);
    assert |b - a| <= |b| by { assert b == (b - a) + (b * a); }
  }

  // Symbols among the first `n` with a length in (10, hi].
  function LongBelow(sizes: seq<nat>, n: nat, hi: nat): nat
    requires n <= |sizes|
  {
    if hi <= FAST_BITS then 0 else LongBelow(sizes, n, hi - 1) + CountBelow(sizes, n, hi)
  }

  lemma {:induction false} LongBelowStep(sizes: seq<nat>, n: nat, hi: nat)
    requires 0 < n <= |sizes|
    ensures LongBelow(sizes, n, hi)
            == LongBelow(sizes, n - 1, hi) + (if FAST_BITS < sizes[n - 1] <= hi then 1 else 0)
  {
    if hi > FAST_BITS {
      LongBelowStep(sizes, n, hi - 1);
    }
  }

  lemma {:induction false} LongBelowZero(sizes: seq<nat>, hi: nat)
    ensures LongBelow(sizes, 0, hi) == 0
  {
    if hi > FAST_BITS {
      LongBelowZero(sizes, hi - 1);
    }
  }

  lemma {:induction false} LongBelowBound(sizes: seq<nat>, n: nat, hi: nat)
    requires n <= |sizes|
    ensures LongBelow(sizes, n, hi) <= n
  {
    if n == 0 {
      LongBelowZero(sizes, hi);
    } else {
      LongBelowBound(sizes, n - 1, hi);
      LongBelowStep(sizes, n, hi);
    }
  }

  // The inner nodes at depths 10 up to `hi`, exclusive.
  function InnerBelow(sizes: seq<nat>, hi: nat): set<Node> {
    if hi <= FAST_BITS then {} else InnerBelow(sizes, hi - 1) + InnerAt(sizes, hi - 1)
  }

  lemma {:induction false} InnerBelowHas(sizes: seq<nat>, hi: nat, node: Node)
    requires FAST_BITS <= node.0 < hi && node in InnerAt(sizes, node.0)
    ensures node in InnerBelow(sizes, hi)
  {
    if node.0 < hi - 1 {
      InnerBelowHas(sizes, hi - 1, node);
    }
  }

  lemma InnerBelowStep(sizes: seq<nat>, hi: nat)
    requires hi > FAST_BITS
    ensures |InnerBelow(sizes, hi)| <= |InnerBelow(sizes, hi - 1)| + |InnerAt(sizes, hi - 1)|
    ensures LongBelow(sizes, |sizes|, hi) == LongBelow(sizes, |sizes|, hi - 1) + Count(sizes, hi)
  {
    hide InnerAt;
    UnionSize(InnerBelow(sizes, hi - 1), InnerAt(sizes, hi - 1));
  }

  // Splitting level by level: inner nodes so far, plus what is open now, against leaves so far.
  lemma {:induction false} InnerBelowSize(sizes: seq<nat>, hi: nat)
    requires Fits(sizes) && FAST_BITS <= hi <= 15
    ensures |InnerBelow(sizes, hi)| + Open(sizes, FAST_BITS) <= Open(sizes, hi) + LongBelow(sizes, |sizes|, hi)
  {
    hide *;
    TenBits();
    if hi > FAST_BITS {
      InnerBelowStep(sizes, hi);
      InnerBelowSize(sizes, hi - 1);
      InnerAtSize(sizes, hi - 1);
      OpenStep(sizes, hi - 1);
    } else {
      InnerBelowNone(sizes);
    }
  }

  lemma TenBits()
    ensures FAST_BITS == 10
  {
  }

  lemma InnerBelowNone(sizes: seq<nat>)
    ensures InnerBelow(sizes, FAST_BITS) == {} && LongBelow(sizes, |sizes|, FAST_BITS) == 0
  {
  }

  // A complete code has no more inner nodes than symbols.
  lemma AllInnerSize(sizes: seq<nat>)
    requires Complete(sizes)
    ensures |InnerBelow(sizes, 15)| <= |sizes|
  {
    InnerBelowSize(sizes, 15);
    LengthFits(sizes, FAST_BITS);
    LongBelowBound(sizes, |sizes|, 15);
    assert Open(sizes, 15) == 0 by { Pow2Values(); }
  }

  lemma {:induction false} DistinctSize(slots: seq<Node>, bound: set<Node>)
    requires forall k :: 0 <= k < |slots| ==> slots[k] in bound
    requires forall j, k :: 0 <= j < k < |slots| ==> slots[j] != slots[k]
    ensures |slots| <= |bound|
  {
    if slots != [] {
      var last := slots[|slots| - 1];
      DistinctSize(slots[..|slots| - 1], bound - {last});
    }
  }

  // The decoder accepts the lengths: Kraft total exact, or at most one symbol in use.
  ghost predicate Accepted(sizes: seq<nat>) {
    Fits(sizes) && (Complete(sizes) || AtMostOneUsed(sizes))
  }

  lemma SlotsBounded(sizes: seq<nat>, n: nat, slots: seq<Node>)
    requires Accepted(sizes) && SlotsOk(sizes, n, slots)
    ensures |slots| <= |sizes| || |slots| <= 5
  {
    if Complete(sizes) {
      forall k | 0 <= k < |slots| ensures slots[k] in InnerBelow(sizes, 15) {
        InnerIsAtLevel(sizes, n, slots[k]);
        InnerBelowHas(sizes, 15, slots[k]);
      }
      AllInnerSize(sizes);
      DistinctSize(slots, InnerBelow(sizes, 15));
    } else if |slots| > 0 {
      LonePathBound(sizes, n, slots);
    }
  }

  // The nodes along one path.
  function PathNodes(w: nat, lo: nat, hi: nat): set<Node> {
    set d | lo <= d < hi :: Prefix(w, d)
  }

  lemma {:induction false} PathNodesSize(w: nat, lo: nat, hi: nat)
    requires lo <= hi
    ensures |PathNodes(w, lo, hi)| <= hi - lo
    decreases hi - lo
  {
    if lo < hi {
      PathNodesSize(w, lo, hi - 1);
      assert PathNodes(w, lo, hi) == PathNodes(w, lo, hi - 1) + {Prefix(w, hi - 1)};
    } else {
      assert PathNodes(w, lo, hi) == {};
    }
  }

  lemma LonePathBound(sizes: seq<nat>, n: nat, slots: seq<Node>)
    requires Fits(sizes) && AtMostOneUsed(sizes) && SlotsOk(sizes, n, slots) && |slots| > 0
    ensures |slots| <= 5
  {
    assert Inner(sizes, n, slots[0]);
    var s :| 0 <= s < n && Used(sizes, s) && slots[0].0 < sizes[s] && Low(Wire(sizes, s), slots[0].0) == slots[0].1;
    var w := Wire(sizes, s);
    forall k | 0 <= k < |slots| ensures slots[k] in PathNodes(w, FAST_BITS, 15) {
      var node := slots[k];
      assert Inner(sizes, n, node);
      var t :| 0 <= t < n && Used(sizes, t) && node.0 < sizes[t] && Low(Wire(sizes, t), node.0) == node.1;
      assert t == s;
      assert node == Prefix(w, node.0);
    }
    PathNodesSize(w, FAST_BITS, 15);
    DistinctSize(slots, PathNodes(w, FAST_BITS, 15));
  }
}
