// Why an unlimited Huffman code over 16-bit counts is never deeper than the 32 lengths miniz makes
// room for: merging lightest-first makes node weights grow like Fibonacci numbers with node height.
module HuffmanDepth {

  function Sum(s: seq<nat>): nat {
    if s == [] then 0 else s[0] + Sum(s[1..])
  }

  lemma {:induction false} SumAppend(s: seq<nat>, x: nat)
    ensures Sum(s + [x]) == Sum(s) + x
  {
    if s == [] {
      assert s + [x] == [x];
    } else {
      SumAppend(s[1..], x);
      assert (s + [x])[1..] == s[1..] + [x];
    }
  }

  lemma {:induction false} SumFirst(s: seq<nat>, k: nat)
    requires k < |s|
    ensures Sum(s[k..]) == s[k] + Sum(s[k + 1..])
  {
    assert s[k..][1..] == s[k + 1..];
  }

  // Sorted, nonzero, and adding up to what 16 bits hold: the counts one block can collect.
  ghost predicate Ordinary(l: seq<nat>) {
    && (forall i :: 0 <= i < |l| ==> l[i] >= 1)
    && (forall i, j :: 0 <= i <= j < |l| ==> l[i] <= l[j])
    && Sum(l) <= 65535
  }

  // The least weight a node of a given height can have.
  function Least(h: nat): (w: nat)
    ensures w >= 1
  {
    if h == 0 then 1 else if h == 1 then 2 else Least(h - 1) + Least(h - 2)
  }

  lemma {:induction false} LeastMonotone(a: nat, b: nat)
    requires a <= b
    ensures Least(a) <= Least(b)
  {
    if a < b {
      LeastMonotone(a, b - 1);
    }
  }

  lemma HeightBound(h: nat)
    requires Least(h) <= 65535
    ensures h <= 22
  {
    if h > 22 {
      assert Least(6) == 21 && Least(7) == 34;
      assert Least(12) == 377 && Least(13) == 610;
      assert Least(18) == 6765 && Least(19) == 10946;
      assert Least(23) == 75025;
      LeastMonotone(23, h);
    }
  }

  // Inner node weights `w` and heights `h`; nodes from `root` and leaves from `leaf` are still
  // unmerged, and nothing left weighs less than `c`, the last item taken.
  ghost predicate Remain(l: seq<nat>, w: seq<nat>, h: seq<nat>, root: nat, leaf: nat, c: nat) {
    && |w| == |h| && root <= |w| && leaf <= |l|
    && (forall i, j :: 0 <= i <= j < |w| ==> w[i] <= w[j])
    && (forall i :: 0 <= i < |w| ==> h[i] >= 1 && Least(h[i]) <= w[i] <= 2 * c && Least(h[i] - 1) <= c)
    && (forall i :: root <= i < |w| ==> c <= w[i])
    && (forall i :: leaf <= i < |l| ==> c <= l[i])
  }

  ghost predicate PicksRoot(l: seq<nat>, w: seq<nat>, root: nat, leaf: nat) {
    root < |w| && (leaf >= |l| || w[root] < l[leaf])
  }

  function PickedWeight(l: seq<nat>, w: seq<nat>, root: nat, leaf: nat, byRoot: bool): nat
    requires if byRoot then root < |w| else leaf < |l|
  {
    if byRoot then w[root] else l[leaf]
  }

  function PickedHeight(h: seq<nat>, root: nat, byRoot: bool): nat
    requires byRoot ==> root < |h|
  {
    if byRoot then h[root] else 0
  }

  // The lightest remaining item is taken: nothing left is lighter.
  lemma PickKeeps(l: seq<nat>, w: seq<nat>, h: seq<nat>, root: nat, leaf: nat, c: nat, byRoot: bool)
    requires Ordinary(l) && Remain(l, w, h, root, leaf, c)
    requires byRoot == PicksRoot(l, w, root, leaf) && (byRoot || leaf < |l|)
    ensures var x := PickedWeight(l, w, root, leaf, byRoot);
            var hx := PickedHeight(h, root, byRoot);
            && c <= x && Least(hx) <= x && (hx >= 1 ==> Least(hx - 1) <= c)
            && (forall i :: (if byRoot then root + 1 else root) <= i < |w| ==> x <= w[i])
            && (forall i :: (if byRoot then leaf else leaf + 1) <= i < |l| ==> x <= l[i])
            && Sum(w[root..]) + Sum(l[leaf..])
               == x + Sum(w[if byRoot then root + 1 else root..]) + Sum(l[if byRoot then leaf else leaf + 1..])
  {
    if byRoot {
      SumFirst(w, root);
    } else {
      SumFirst(l, leaf);
    }
  }

  function Taller(x: nat, y: nat): (t: nat)
    ensures t >= 1 && t > x && t > y
  {
    1 + if x >= y then x else y
  }

  // A new inner node over the two items taken.
  lemma MergeKeeps(l: seq<nat>, w: seq<nat>, h: seq<nat>, root: nat, leaf: nat, c: nat,
                   x: nat, hx: nat, y: nat, hy: nat, root': nat, leaf': nat)
    requires Remain(l, w, h, root, leaf, c) && root <= root' <= |w| && leaf <= leaf' <= |l|
    requires c <= x <= y && Least(hx) <= x && Least(hy) <= y
    requires (hx >= 1 ==> Least(hx - 1) <= c) && (hy >= 1 ==> Least(hy - 1) <= c)
    requires forall i :: root' <= i < |w| ==> y <= w[i]
    requires forall i :: leaf' <= i < |l| ==> y <= l[i]
    ensures Remain(l, w + [x + y], h + [Taller(hx, hy)], root', leaf', y)
  {
    hide Least, Taller;
    var w', h' := w + [x + y], h + [Taller(hx, hy)];
    forall i | 0 <= i < |w'|
      ensures h'[i] >= 1 && Least(h'[i]) <= w'[i] <= 2 * y && Least(h'[i] - 1) <= y
    {
      if i < |w| {
        assert w'[i] == w[i] && h'[i] == h[i];
      } else {
        TallerWeight(hx, hy, x, y, c);
      }
    }
    forall i, j | 0 <= i <= j < |w'| ensures w'[i] <= w'[j] {
      if j == |w| && i < |w| {
        assert w'[i] == w[i] <= 2 * c;
      }
    }
  }

  lemma TallerWeight(hx: nat, hy: nat, x: nat, y: nat, c: nat)
    requires 0 <= c <= x <= y && Least(hx) <= x && Least(hy) <= y
    requires (hx >= 1 ==> Least(hx - 1) <= c) && (hy >= 1 ==> Least(hy - 1) <= c)
    ensures Least(Taller(hx, hy)) <= x + y && Least(Taller(hx, hy) - 1) <= y
  {
    var h := if hx >= hy then hx else hy;
    assert Least(h) <= y;
    if h >= 1 {
      assert Least(h + 1) == Least(h) + Least(h - 1);
    }
  }

  // The merging array `a`, seen as weights of what remains and parent links of what is merged.
  ghost predicate Merging(l: seq<nat>, a: seq<nat>, w: seq<nat>, h: seq<nat>, root: nat, leaf: nat, c: nat) {
    && Remain(l, w, h, root, leaf, c) && |a| == |l| && |w| < |a|
    && (forall i :: root <= i < |w| ==> a[i] == w[i])
    && (forall i :: leaf <= i < |l| ==> a[i] == l[i])
    && (forall i :: 0 <= i < root ==> a[i] < |h| && h[i] < h[a[i]])
    && Sum(w[root..]) + Sum(l[leaf..]) == Sum(l)
  }

  // The first merge takes the two lightest leaves.
  lemma FirstMerge(l: seq<nat>, a: seq<nat>)
    requires Ordinary(l) && |l| >= 2 && a == l[0 := l[0] + l[1]]
    ensures Merging(l, a, [l[0] + l[1]], [1], 0, 2, l[1]) && l[0] + l[1] <= 65535
  {
    SumFirst(l, 0);
    SumFirst(l, 1);
    assert l[0..] == l;
    var w := [l[0] + l[1]];
    assert w[0..] == w && w[1..] == [];
    assert Sum(w) == l[0] + l[1];
    assert Least(1) == 2 && Least(0) == 1;
    assert Remain(l, w, [1], 0, 2, l[1]);
  }

  function After(at: nat, taken: bool): nat {
    if taken then at + 1 else at
  }

  // Two picks in a row: their weights, and the state after merging them.
  lemma TwoPicks(l: seq<nat>, w: seq<nat>, h: seq<nat>, root: nat, leaf: nat, c: nat, one: bool, two: bool)
    returns (x: nat, y: nat, hz: nat)
    requires Ordinary(l) && Remain(l, w, h, root, leaf, c)
    requires one == PicksRoot(l, w, root, leaf) && (one || leaf < |l|)
    requires var r, f := After(root, one), After(leaf, !one);
             two == PicksRoot(l, w, r, f) && (two || f < |l|)
    ensures var r, f := After(root, one), After(leaf, !one);
            var r2, f2 := After(r, two), After(f, !two);
            && x == PickedWeight(l, w, root, leaf, one) && y == PickedWeight(l, w, r, f, two) && x <= y
            && r2 <= |w| && f2 <= |l| && Remain(l, w + [x + y], h + [hz], r2, f2, y)
            && Sum(w[root..]) + Sum(l[leaf..]) == x + y + Sum(w[r2..]) + Sum(l[f2..])
            && forall i :: root <= i < r2 ==> h[i] < hz
  {
    hide Least, Taller, Sum;
    var r, f := After(root, one), After(leaf, !one);
    x, y := PickedWeight(l, w, root, leaf, one), PickedWeight(l, w, r, f, two);
    var hx, hy := PickedHeight(h, root, one), PickedHeight(h, r, two);
    hz := Taller(hx, hy);
    PickKeeps(l, w, h, root, leaf, c, one);
    assert Remain(l, w, h, r, f, x);
    PickKeeps(l, w, h, r, f, x, two);
    SecondPick(h, w, root, c, r, two, x, y);
    MergeKeeps(l, w, h, root, leaf, c, x, hx, y, hy, After(r, two), After(f, !two));
  }

  // One round of the merge loop: two picks and a new inner node.
  lemma MergeStep(l: seq<nat>, was: seq<nat>, now: seq<nat>, w: seq<nat>, h: seq<nat>, root: nat, leaf: nat, c: nat,
                  one: bool, two: bool)
    returns (x: nat, y: nat, hz: nat)
    requires Ordinary(l) && Merging(l, was, w, h, root, leaf, c) && |w| + 1 < |l| && |w| < leaf
    requires one == PicksRoot(l, w, root, leaf) && (one || leaf < |l|)
    requires var r, f := After(root, one), After(leaf, !one);
             two == PicksRoot(l, w, r, f) && (two || f < |l|)
    requires |now| == |was|
    requires forall i :: 0 <= i < |now| && i != |w| && !(root <= i < After(After(root, one), two)) ==> now[i] == was[i]
    requires forall i :: root <= i < After(After(root, one), two) ==> now[i] == |w|
    requires var r, f := After(root, one), After(leaf, !one);
             now[|w|] == (PickedWeight(l, w, root, leaf, one) + PickedWeight(l, w, r, f, two)) % 65536
    ensures Merging(l, now, w + [x + y], h + [hz], After(After(root, one), two), After(After(leaf, !one), !two), y)
    ensures x == PickedWeight(l, w, root, leaf, one) && x <= y
    ensures y == PickedWeight(l, w, After(root, one), After(leaf, !one), two)
  {
    hide Sum, Ordinary, PicksRoot, PickedWeight;
    x, y, hz := TwoPicks(l, w, h, root, leaf, c, one, two);
    SmallTotal(l);
    hide Remain;
    var r2, f2 := After(After(root, one), two), After(After(leaf, !one), !two);
    SumMerged(w, r2, x + y);
    ViewMerged(l, was, now, w, h, root, leaf, r2, f2, x + y, hz);
  }

  lemma SmallTotal(l: seq<nat>)
    requires Ordinary(l)
    ensures Sum(l) <= 65535
  {
  }

  lemma SumMerged(w: seq<nat>, r: nat, v: nat)
    requires r <= |w|
    ensures Sum((w + [v])[r..]) == Sum(w[r..]) + v
  {
    SumAppend(w[r..], v);
    assert (w + [v])[r..] == w[r..] + [v];
  }

  // The array after the round still shows what remains and what is linked.
  lemma ViewMerged(l: seq<nat>, was: seq<nat>, now: seq<nat>, w: seq<nat>, h: seq<nat>, root: nat, leaf: nat,
                   r2: nat, f2: nat, v: nat, hz: nat)
    requires |was| == |now| == |l| && |w| == |h| && |w| < |l| && root <= r2 <= |w| < leaf <= f2 <= |l|
    requires forall i :: root <= i < |w| ==> was[i] == w[i]
    requires forall i :: leaf <= i < |l| ==> was[i] == l[i]
    requires forall i :: 0 <= i < root ==> was[i] < |h| && h[i] < h[was[i]]
    requires forall i :: 0 <= i < |now| && i != |w| && !(root <= i < r2) ==> now[i] == was[i]
    requires forall i :: root <= i < r2 ==> now[i] == |w| && h[i] < hz
    requires now[|w|] == v
    ensures forall i :: r2 <= i < |w| + 1 ==> now[i] == (w + [v])[i]
    ensures forall i :: f2 <= i < |l| ==> now[i] == l[i]
    ensures forall i :: 0 <= i < r2 ==> now[i] < |h| + 1 && (h + [hz])[i] < (h + [hz])[now[i]]
  {
    var h' := h + [hz];
    forall i | 0 <= i < r2 ensures now[i] < |h| + 1 && h'[i] < h'[now[i]] {
      if i < root {
        assert was[i] < |h| && h[i] < h[was[i]];
      }
    }
  }

  lemma SecondPick(h: seq<nat>, w: seq<nat>, root: nat, c: nat, r: nat, two: bool, x: nat, y: nat)
    requires |h| == |w| && root <= r && (two ==> r < |w|)
    requires forall i :: 0 <= i < |w| ==> h[i] >= 1 && Least(h[i] - 1) <= c
    ensures var hy := PickedHeight(h, r, two); hy >= 1 ==> Least(hy - 1) <= c
  {
  }

  // Heights grow along parent links, up to a root of bounded height.
  ghost predicate HeightsOk(p: seq<nat>, h: seq<nat>, m: nat) {
    && |h| == m + 1 && m <= |p|
    && (forall i :: 0 <= i < m ==> i < p[i] <= m && h[i] < h[p[i]])
    && (forall i :: 0 <= i <= m ==> h[i] >= 1) && h[m] <= 22
  }

  lemma {:induction false} DepthPlusHeight(p: seq<nat>, h: seq<nat>, d: seq<nat>, m: nat, i: nat)
    requires HeightsOk(p, h, m) && i <= m < |d| && d[m] == 0
    requires forall j {:trigger p[j]} :: 0 <= j < m ==> j < p[j] <= m && d[j] == d[p[j]] + 1
    ensures d[i] + h[i] <= h[m]
    decreases m - i
  {
    if i < m {
      DepthPlusHeight(p, h, d, m, p[i]);
    }
  }

  // When everything is merged into one root, its weight is the total, so its height is bounded.
  lemma FullyMerged(l: seq<nat>, a: seq<nat>, w: seq<nat>, h: seq<nat>, root: nat, leaf: nat, c: nat)
    requires Ordinary(l) && Merging(l, a, w, h, root, leaf, c) && leaf == |l| && root == |w| - 1
    requires forall i :: 0 <= i < root ==> i < a[i] <= root
    ensures HeightsOk(a, h, root)
  {
    SumFirst(w, root);
    assert w[root..][1..] == [] && l[leaf..] == [];
    HeightBound(h[root]);
  }
}
