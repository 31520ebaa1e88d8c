// The encoder's in-place construction of Huffman code lengths in libjade/miniz.c: one array holds
// symbol weights, then parent links, then node depths, and at the end the code lengths.
module HuffmanLengths {
  import opened Bits
  import opened HuffmanDepth
  import opened HuffmanOptimal
  import opened HuffmanCost

  function U16(x: nat): nat {
    x % 65536
  }

  // The first `m` inner nodes link upwards to nodes at most `top`, in order, at most two to a parent.
  ghost predicate Parents(p: seq<nat>, m: nat, top: nat) {
    && m <= |p|
    && (forall i :: 0 <= i < m ==> i < p[i] <= top)
    && (forall i, j :: 0 <= i < j < m ==> p[i] <= p[j])
    && (forall i, j :: 0 <= i < m && j == i + 2 && j < m ==> p[i] < p[j])
  }

  // Depths of the inner nodes from `lo` up to the root `m`: one more than the parent's.
  ghost predicate Depths(d: seq<nat>, p: seq<nat>, lo: nat, m: nat) {
    && m < |d| && m <= |p| && d[m] == 0
    && (forall i {:trigger p[i]} :: lo <= i < m ==> i < p[i] <= m && d[i] == d[p[i]] + 1)
    && (forall i, j :: lo <= i <= j <= m ==> d[i] >= d[j])
    && (forall i :: lo <= i <= m ==> d[i] <= m - i)
  }

  // First phase: merge the two lightest items again and again, leaving a parent link in each inner node.
  // `w` are the inner nodes' weights, `r` and `f` tell which round took which node.
  method LinkParents(a: array<nat>) returns (ghost heights: seq<nat>, ghost w: seq<nat>, ghost r: seq<nat>,
                                             ghost f: seq<nat>)
    requires 2 <= a.Length <= 65535
    modifies a
    ensures Parents(a[..], a.Length - 2, a.Length - 2)
    ensures Linked(a[..], r, f, a.Length - 1) && r[a.Length - 1] == a.Length - 2
    ensures old(Ordinary(a[..])) ==>
              HeightsOk(a[..], heights, a.Length - 2) && Rounds(old(a[..]), w, r, f, a.Length - 1)
  {
    hide U16, Linking;
    var n := a.Length;
    ghost var l := a[..];
    ghost var c := a[1];
    w, r, f, heights := [a[0] + a[1]], [0, 0], [0, 2], [1];
    a[0] := U16(a[0] + a[1]);
    LinkingStarts(l, a[..]);
    var root, leaf, next := 0, 2, 1;
    while next < n - 1
      invariant 1 <= next <= n - 1 && 2 <= leaf <= n && 0 <= root < next && root + leaf == 2 * next
      invariant Linking(l, a[..], w, heights, r, f, root, leaf, next, c)
    {
      ghost var was, r0, f0 := a[..], root, leaf;
      ghost var r1, f1;
      root, leaf, r1, f1 := LinkTwo(a, next, root, leaf);
      w, heights, c := LinkRound(l, was, a[..], w, heights, r, f, r0, f0, r1, f1, root, leaf, next, c);
      r, f, next := r + [root], f + [leaf], next + 1;
    }
    LinkingEnds(l, a[..], w, heights, r, f, root, leaf, c);
  }

  // Before round `next` of the first phase.
  ghost predicate Linking(l: seq<nat>, a: seq<nat>, w: seq<nat>, h: seq<nat>, r: seq<nat>, f: seq<nat>, root: nat,
                          leaf: nat, next: nat, c: nat) {
    && next >= 1 && Parents(a, root, next - 1)
    && |r| == |f| == next + 1 && r[next] == root && f[next] == leaf && Linked(a, r, f, next)
    && (Ordinary(l) ==> |w| == next && Merging(l, a, w, h, root, leaf, c) && Rounds(l, w, r, f, next))
  }

  lemma LinkingStarts(l: seq<nat>, a: seq<nat>)
    requires |l| >= 2 && a == l[0 := U16(l[0] + l[1])]
    ensures Linking(l, a, [l[0] + l[1]], [1], [0, 0], [0, 2], 0, 2, 1, l[1])
  {
    hide Merging, Linked, Rounds;
    LinkedFirst(a);
    if Ordinary(l) {
      FirstMerge(l, l[0 := l[0] + l[1]]);
      FirstRound(l);
    }
  }

  lemma LinkRound(l: seq<nat>, was: seq<nat>, now: seq<nat>, w: seq<nat>, h: seq<nat>, r: seq<nat>, f: seq<nat>,
                  r0: nat, f0: nat, r1: nat, f1: nat, r2: nat, f2: nat, next: nat, c: nat)
    returns (w': seq<nat>, h': seq<nat>, c': nat)
    requires Linking(l, was, w, h, r, f, r0, f0, next, c)
    requires |l| == |was| == |now| && next + 1 < |now| && r0 < next < f0 <= |l| && r0 + f0 == 2 * next
    requires if f0 >= |l| || was[r0] < was[f0] then r1 == r0 + 1 && f1 == f0 else r1 == r0 && f1 == f0 + 1
    requires r1 <= next && f1 <= |l|
    requires if f1 >= |l| || (r1 < next && was[r1] < was[f1]) then r2 == r1 + 1 && f2 == f1
             else r2 == r1 && f2 == f1 + 1
    requires r2 <= next && f2 <= |l| && (r2 > r1 ==> r1 < next)
    requires now[next] == U16((if r1 > r0 then was[r0] else was[f0]) + (if r2 > r1 then was[r1] else was[f1]))
    requires forall i :: 0 <= i < |now| && i != next && !(r0 <= i < r2) ==> now[i] == was[i]
    requires forall i :: r0 <= i < r2 ==> now[i] == next
    ensures Linking(l, now, w', h', r + [r2], f + [f2], r2, f2, next + 1, c')
  {
    hide U16, Parents, Ordinary, Merging, Linked, Rounds, RoundOk;
    LinkStep(was, now, r0, r2, next);
    LinkedGrows(was, now, r, f, next, r2, f2);
    w', h', c' := w, h, c;
    if Ordinary(l) {
      var v;
      v, h', c' := RoundMerges(l, was, now, w, h, r0, f0, r1, f1, r2, f2, c);
      RoundsGrow(l, w, r, f, next, v, r2, f2);
      w' := w + [v];
    }
  }

  lemma LinkingEnds(l: seq<nat>, a: seq<nat>, w: seq<nat>, h: seq<nat>, r: seq<nat>, f: seq<nat>, root: nat, leaf: nat,
                    c: nat)
    requires |l| == |a| >= 2 && Linking(l, a, w, h, r, f, root, leaf, |a| - 1, c)
    requires root < |a| - 1 && leaf <= |a| && root + leaf == 2 * (|a| - 1)
    ensures Parents(a, |a| - 2, |a| - 2) && Linked(a, r, f, |a| - 1) && r[|a| - 1] == |a| - 2
    ensures Ordinary(l) ==> HeightsOk(a, h, |a| - 2) && Rounds(l, w, r, f, |a| - 1)
  {
    hide Ordinary, Merging, Linked, Rounds, HeightsOk;
    if Ordinary(l) {
      FullyMerged(l, a, w, h, root, leaf, c);
    }
  }

  // One round: move the two lightest items under inner node `next`.
  method LinkTwo(a: array<nat>, next: nat, root0: nat, leaf0: nat)
    returns (root: nat, leaf: nat, ghost r1: nat, ghost f1: nat)
    requires root0 < next < a.Length - 1 && next < leaf0 <= a.Length && root0 + leaf0 == 2 * next
    modifies a
    ensures if leaf0 >= a.Length || old(a[root0] < a[leaf0]) then r1 == root0 + 1 && f1 == leaf0
            else r1 == root0 && f1 == leaf0 + 1
    ensures r1 <= next
    ensures if f1 >= a.Length || (r1 < next && old(a[r1]) < old(a[f1])) then root == r1 + 1 && leaf == f1
            else root == r1 && leaf == f1 + 1
    ensures f1 <= a.Length && root <= next && leaf <= a.Length && (root > r1 ==> r1 < next)
    ensures a[next] == U16((if r1 > root0 then old(a[root0]) else old(a[leaf0]))
                           + (if root > r1 then old(a[r1]) else old(a[f1])))
    ensures forall i :: 0 <= i < a.Length && i != next && !(root0 <= i < root) ==> a[i] == old(a[i])
    ensures forall i :: root0 <= i < root ==> a[i] == next
  {
    root, leaf := root0, leaf0;
    if leaf >= a.Length || a[root] < a[leaf] {
      a[next] := a[root];
      a[root] := next;
      root := root + 1;
    } else {
      a[next] := a[leaf];
      leaf := leaf + 1;
    }
    r1, f1 := root, leaf;
    if leaf >= a.Length || (root < next && a[root] < a[leaf]) {
      a[next] := U16(a[next] + a[root]);
      a[root] := next;
      root := root + 1;
    } else {
      a[next] := U16(a[next] + a[leaf]);
      leaf := leaf + 1;
    }
  }

  // One pass of the loop body is one round of the abstract merge.
  lemma RoundMerges(l: seq<nat>, was: seq<nat>, now: seq<nat>, w: seq<nat>, h: seq<nat>, r0: nat, f0: nat,
                    r1: nat, f1: nat, r2: nat, f2: nat, c: nat)
    returns (v: nat, h': seq<nat>, c': nat)
    requires Ordinary(l) && Merging(l, was, w, h, r0, f0, c) && |w| + 1 < |l| == |now|
    requires r0 < |w| && r0 + f0 == 2 * |w|
    requires if f0 >= |l| || was[r0] < was[f0] then r1 == r0 + 1 && f1 == f0 else r1 == r0 && f1 == f0 + 1
    requires if f1 >= |l| || (r1 < |w| && was[r1] < was[f1]) then r2 == r1 + 1 && f2 == f1 else r2 == r1 && f2 == f1 + 1
    requires now[|w|] == U16((if r1 > r0 then was[r0] else was[f0]) + (if r2 > r1 then was[r1] else was[f1]))
    requires forall i :: 0 <= i < |now| && i != |w| && !(r0 <= i < r2) ==> now[i] == was[i]
    requires forall i :: r0 <= i < r2 ==> now[i] == |w|
    ensures Merging(l, now, w + [v], h', r2, f2, c') && RoundOk(l, w + [v], |w|, r0, f0, r2, f2)
  {
    hide Ordinary, RoundOk, Merging;
    MergingIs(l, was, w, h, r0, f0, c);
    var x, y, hz := MergeStep(l, was, now, w, h, r0, f0, c, r1 > r0, r2 > r1);
    v, h', c' := x + y, h + [hz], y;
    RoundRecorded(l, now, w, h', r0, f0, r1, f1, r2, f2, x, y);
  }

  lemma MergingIs(l: seq<nat>, a: seq<nat>, w: seq<nat>, h: seq<nat>, root: nat, leaf: nat, c: nat)
    requires Merging(l, a, w, h, root, leaf, c)
    ensures |a| == |l| && root <= |w| < |a| && leaf <= |l|
    ensures forall i :: root <= i < |w| ==> a[i] == w[i]
    ensures forall i :: leaf <= i < |l| ==> a[i] == l[i]
  {
  }

  lemma RoundRecorded(l: seq<nat>, now: seq<nat>, w: seq<nat>, h: seq<nat>, r0: nat, f0: nat, r1: nat, f1: nat,
                      r2: nat, f2: nat, x: nat, y: nat)
    requires Merging(l, now, w + [x + y], h, r2, f2, y) && x <= y && r0 <= r1 <= r2 <= |w| && f0 <= f1 <= f2 <= |l|
    requires r1 + f1 == r0 + f0 + 1 && r2 + f2 == r1 + f1 + 1
    requires x == PickedWeight(l, w, r0, f0, r1 > r0) && y == PickedWeight(l, w, r1, f1, r2 > r1)
    ensures RoundOk(l, w + [x + y], |w|, r0, f0, r2, f2)
  {
    hide Remain, RoundOk, Sum;
    NothingLighter(l, w, x + y, h, r2, f2, y);
    RoundIs(l, w, r0, f0, r1, f1, r2, f2, x, y);
  }

  lemma NothingLighter(l: seq<nat>, w: seq<nat>, v: nat, h: seq<nat>, r: nat, f: nat, c: nat)
    requires Remain(l, w + [v], h, r, f, c) && r <= |w|
    ensures f <= |l| && (forall i :: r <= i < |w| ==> c <= w[i]) && (forall i :: f <= i < |l| ==> c <= l[i])
  {
    assert forall i :: r <= i < |w| ==> (w + [v])[i] == w[i];
  }

  lemma LinkStep(was: seq<nat>, now: seq<nat>, r0: nat, root: nat, next: nat)
    requires next >= 1 && Parents(was, r0, next - 1) && |now| == |was| && r0 <= root <= r0 + 2 && root <= next < |now|
    requires forall i :: 0 <= i < r0 ==> now[i] == was[i]
    requires forall i :: r0 <= i < root ==> now[i] == next
    ensures Parents(now, root, next)
  {
  }

  // Second phase: turn parent links into depths, root first.
  method LinksToDepths(a: array<nat>, ghost p: seq<nat>)
    requires 2 <= a.Length && p == a[..] && Parents(p, a.Length - 2, a.Length - 2)
    modifies a
    ensures Depths(a[..], p, 0, a.Length - 2)
  {
    var n := a.Length;
    a[n - 2] := 0;
    assert Depths(a[..], p, n - 2, n - 2);
    for next := n - 2 downto 0
      invariant forall i :: 0 <= i < next ==> a[i] == p[i]
      invariant Depths(a[..], p, next, n - 2)
    {
      SetDepth(a, p, next);
    }
  }

  method SetDepth(a: array<nat>, ghost p: seq<nat>, next: nat)
    requires 2 <= a.Length && next < a.Length - 2 && Parents(p, a.Length - 2, a.Length - 2)
    requires forall i :: 0 <= i <= next ==> a[i] == p[i]
    requires Depths(a[..], p, next + 1, a.Length - 2)
    modifies a
    ensures forall i :: 0 <= i < next ==> a[i] == p[i]
    ensures Depths(a[..], p, next, a.Length - 2)
  {
    ghost var was := a[..];
    assert next < p[next] <= a.Length - 2;
    a[next] := a[a[next]] + 1;
    DepthStep(was, a[..], p, next, a.Length - 2);
  }

  lemma DepthStep(was: seq<nat>, now: seq<nat>, p: seq<nat>, i: nat, m: nat)
    requires i < m && Parents(p, m, m) && Depths(was, p, i + 1, m) && |now| == |was|
    requires forall j :: 0 <= j < |was| && j != i ==> now[j] == was[j]
    requires now[i] == was[p[i]] + 1
    ensures Depths(now, p, i, m)
  {
    assert i < p[i] <= m;
    if i + 1 < m {
      assert p[i] <= p[i + 1];
      assert was[i + 1] == was[p[i + 1]] + 1;
    }
    forall j, k | i <= j <= k <= m ensures now[j] >= now[k] {
      if j == i < k {
        assert now[i] >= was[i + 1] >= was[k];
      }
    }
  }

  // A level of the tree is at most twice the level above it.
  lemma LevelDoubles(p: seq<nat>, d: seq<nat>, m: nat, below: int, top: int, above: int, depth: nat)
    requires Parents(p, m, m) && Depths(d, p, 0, m) && depth >= 1
    requires -1 <= below <= top <= above <= m
    requires top < m
    requires forall j :: below < j <= top ==> d[j] == depth
    requires forall j :: 0 <= j <= top ==> d[j] >= depth
    requires forall j :: above < j <= m ==> d[j] < depth - 1
    ensures top - below <= 2 * (above - top)
  {
    var s := above - top;
    if top - below > 2 * s {
      var first := below + 1;
      LevelParent(p, d, m, top, above, depth, first);
      LevelParent(p, d, m, top, above, depth, first + 2 * s);
      Spread(p, m, first, s);
    }
  }

  lemma LevelParent(p: seq<nat>, d: seq<nat>, m: nat, top: int, above: int, depth: nat, i: nat)
    requires Parents(p, m, m) && Depths(d, p, 0, m) && depth >= 1
    requires 0 <= i <= top <= above <= m && top < m && d[i] == depth
    requires forall j :: 0 <= j <= top ==> d[j] >= depth
    requires forall j :: above < j <= m ==> d[j] < depth - 1
    ensures top < p[i] <= above
  {
    assert d[i] == d[p[i]] + 1;
  }

  lemma {:induction false} Spread(p: seq<nat>, m: nat, i: nat, k: nat)
    requires Parents(p, m, m) && i + 2 * k < m
    ensures p[i + 2 * k] >= p[i] + k
  {
    if k > 0 {
      Spread(p, m, i, k - 1);
      assert p[i + 2 * (k - 1)] < p[i + 2 * k];
    }
  }

  // Before depth `depth`: inner nodes up to `root` are still waiting, `avbl` places are free at this depth.
  ghost predicate LevelState(d: seq<nat>, m: nat, root: int, above: int, depth: nat, avbl: nat) {
    && m < |d| && -1 <= root <= above <= m
    && (forall j :: 0 <= j <= root ==> d[j] >= depth)
    && (forall j :: above < j <= m ==> d[j] + 1 < depth)
    && (forall j :: root < j <= above ==> d[j] + 1 == depth)
    && (depth == 0 ==> root == above == m && avbl == 1)
    && (depth > 0 ==> avbl == 2 * (above - root) && root < m)
  }

  // The waiting node with the highest index sits exactly at this depth.
  lemma NextIsHere(d: seq<nat>, p: seq<nat>, m: nat, root: int, above: int, depth: nat, avbl: nat)
    requires Depths(d, p, 0, m) && LevelState(d, m, root, above, depth, avbl) && root >= 0
    ensures d[root] == depth
  {
    if root < m {
      assert d[root] == d[p[root]] + 1;
    }
  }

  lemma RootRange(d: seq<nat>, m: nat, root: int, above: int, depth: nat, avbl: nat)
    requires LevelState(d, m, root, above, depth, avbl)
    ensures -1 <= root < |d|
  {
  }

  // The lengths handed out and the places still free at `depth` make up the whole code space.
  ghost predicate Spent(done: seq<nat>, n: nat, avbl: nat, depth: nat) {
    depth <= n && KraftSum(done, n) + avbl * Pow2(n - depth) == Pow2(n)
  }

  // What holds between two levels of the third phase.
  ghost predicate Handing(a: seq<nat>, d: seq<nat>, root: int, next: int, above: int, depth: nat, avbl: nat) {
    var n := |a|;
    && n == |d| >= 2 && LevelState(d, |d| - 2, root, above, depth, avbl)
    && next == root + avbl && (root >= 0 ==> avbl > 0) && -1 <= next < n
    && (forall j :: 0 <= j <= root ==> a[j] == d[j])
    && depth <= n && (avbl > 0 ==> depth < n)
    && depth <= d[0] + 2 && (avbl > 0 ==> depth <= d[0] + 1)
    && Assigned(a, next + 1, depth)
    && Spent(a[next + 1..], n, avbl, depth)
  }

  // Third phase: hand the free places of each level to the leaves, heaviest symbols first.
  method DepthsToLengths(a: array<nat>, ghost p: seq<nat>, ghost r: seq<nat>, ghost f: seq<nat>)
    requires 2 <= a.Length && Parents(p, a.Length - 2, a.Length - 2) && Depths(a[..], p, 0, a.Length - 2)
    requires Linked(p, r, f, a.Length - 1) && r[a.Length - 1] == a.Length - 2
    modifies a
    ensures Placed(a[..], old(a[..]), f, -1)
    ensures KraftSum(a[..], a.Length) == Pow2(a.Length)
    ensures forall i :: 0 <= i < a.Length ==> 1 <= a[i] < a.Length && a[i] <= old(a[0]) + 1
    ensures forall i, j :: 0 <= i <= j < a.Length ==> a[i] >= a[j]
  {
    hide Handing, Placed, Linked;
    var n := a.Length;
    ghost var d := a[..];
    var avbl: nat, dpth: nat := 1, 0;
    var root, next := n - 2, n - 1;
    ghost var above := n - 2;
    HandingStarts(d, p);
    assert a[..] == d;
    LinkedSize(p, r, f, n - 1);
    NonePlaced(a[..], d, f);
    while avbl > 0
      invariant Handing(a[..], d, root, next, above, dpth, avbl) && -1 <= above <= n - 2 && Placed(a[..], d, f, above)
      decreases root + 1, avbl
    {
      assert avbl > 0;
      ghost var was, at, top, high, free := a[..], next, root, above, avbl;
      avbl, root, next, above := HandLevel(a, d, p, root, next, above, dpth, avbl);
      LevelPlaced(was, a[..], d, p, r, f, top, at, high, dpth, free, root, next, avbl);
      dpth := dpth + 1;
    }
    HandingEnds(a[..], d, root, next, above, dpth);
    NoneWaiting(a[..], d, root, next, above, dpth);
  }

  // When no place is left, every leaf has its length.
  lemma HandingEnds(a: seq<nat>, d: seq<nat>, root: int, next: int, above: int, depth: nat)
    requires Handing(a, d, root, next, above, depth, 0)
    ensures KraftSum(a, |a|) == Pow2(|a|)
    ensures forall i :: 0 <= i < |a| ==> 1 <= a[i] < |a| && a[i] <= d[0] + 1
    ensures forall i, j :: 0 <= i <= j < |a| ==> a[i] >= a[j]
  {
    assert a[0..] == a;
  }

  // What a level is made of.
  lemma HandingLevel(a: seq<nat>, d: seq<nat>, root: int, next: int, above: int, depth: nat, avbl: nat)
    requires Handing(a, d, root, next, above, depth, avbl)
    ensures |a| == |d| >= 2 && next == root + avbl && LevelState(d, |d| - 2, root, above, depth, avbl)
  {
    hide KraftSum, Pow2, Assigned, Spent, LevelState;
  }

  lemma NoneWaiting(a: seq<nat>, d: seq<nat>, root: int, next: int, above: int, depth: nat)
    requires Handing(a, d, root, next, above, depth, 0)
    ensures above == -1
  {
    hide KraftSum, Pow2, Assigned, Spent, LevelState;
    NothingAbove(d, |d| - 2, root, above, depth);
  }

  lemma NothingAbove(d: seq<nat>, m: nat, root: int, above: int, depth: nat)
    requires LevelState(d, m, root, above, depth, 0)
    ensures above == root
  {
  }

  // The leaves taken by inner nodes above this one have their lengths: one more than the node's depth.
  ghost predicate Placed(a: seq<nat>, d: seq<nat>, f: seq<nat>, above: int) {
    |f| == |a| == |d| &&
    forall i, t :: 0 <= i < |f| - 1 && above < i && f[i] <= t < f[i + 1] && t < |a| ==> a[t] == d[i] + 1
  }

  lemma NonePlaced(a: seq<nat>, d: seq<nat>, f: seq<nat>)
    requires |f| == |a| == |d| >= 2
    ensures Placed(a, d, f, |a| - 2)
  {
  }

  // The nodes waiting are those taken up to `above`, so the leaves waiting are those taken up to `above`.
  lemma WaitingLeaves(d: seq<nat>, p: seq<nat>, r: seq<nat>, f: seq<nat>, m: nat, root: int, above: int, depth: nat,
                      avbl: nat)
    requires Depths(d, p, 0, m) && LevelState(d, m, root, above, depth, avbl)
    requires Linked(p, r, f, m + 1) && r[m + 1] == m
    ensures f[above + 1] == root + avbl + 1
  {
    if depth > 0 {
      InOrder(p, r, f, m + 1, above + 1, m + 1);
      if root >= 0 {
        var i := TakenBy(p, r, f, m + 1, root);
        assert d[root] == d[p[root]] + 1;
        InOrder(p, r, f, m + 1, i + 1, above + 1);
      }
      if r[above + 1] > root + 1 {
        var i := TakenBy(p, r, f, above + 1, root + 1);
      }
    }
  }

  lemma {:induction false} TakenBy(p: seq<nat>, r: seq<nat>, f: seq<nat>, k: nat, j: nat) returns (i: nat)
    requires k < |r| && |r| == |f| && Linked(p, r, f, |r| - 1) && j < r[k]
    ensures i < k && p[j] == i && r[i] <= j < r[i + 1]
  {
    if j >= r[k - 1] {
      i := k - 1;
    } else {
      i := TakenBy(p, r, f, k - 1, j);
    }
  }

  lemma LevelPlaced(was: seq<nat>, now: seq<nat>, d: seq<nat>, p: seq<nat>, r: seq<nat>, f: seq<nat>, top: int, at: int,
                    above: int, depth: nat, free: nat, root: int, next: int, avbl: nat)
    requires Handing(was, d, top, at, above, depth, free) && Handing(now, d, root, next, top, depth + 1, avbl)
    requires Depths(d, p, 0, |d| - 2) && Linked(p, r, f, |d| - 1) && r[|d| - 1] == |d| - 2 && Placed(was, d, f, above)
    requires |now| == |was| && forall j :: 0 <= j < |now| && at < j ==> now[j] == was[j]
    requires forall j :: 0 <= j < |now| && next < j <= at ==> now[j] == depth
    ensures Placed(now, d, f, top)
  {
    hide Handing, Depths, Linked, LevelState, Placed;
    HandingLevel(was, d, top, at, above, depth, free);
    HandingLevel(now, d, root, next, top, depth + 1, avbl);
    LinkedSize(p, r, f, |d| - 1);
    var m := |d| - 2;
    WaitingLeaves(d, p, r, f, m, top, above, depth, free);
    WaitingLeaves(d, p, r, f, m, root, top, depth + 1, avbl);
    forall i, j | 0 <= i <= j < |f| ensures f[i] <= f[j] {
      InOrder(p, r, f, m + 1, i, j);
    }
    LevelNodes(d, m, top, above, depth, free);
    PlacedFurther(was, now, d, f, top, at, above, depth, next);
  }

  lemma LevelNodes(d: seq<nat>, m: nat, root: int, above: int, depth: nat, avbl: nat)
    requires LevelState(d, m, root, above, depth, avbl)
    ensures -1 <= root <= above <= m < |d| && forall j :: root < j <= above ==> d[j] + 1 == depth
  {
  }

  // The leaves taken by the nodes of one level get that level's length.
  lemma PlacedFurther(was: seq<nat>, now: seq<nat>, d: seq<nat>, f: seq<nat>, top: int, at: int, above: int, depth: nat,
                      next: int)
    requires Placed(was, d, f, above) && |now| == |was| && -1 <= top <= above < |f| - 1
    requires forall i, j :: 0 <= i <= j < |f| ==> f[i] <= f[j]
    requires f[above + 1] == at + 1 && f[top + 1] == next + 1
    requires forall j :: top < j <= above ==> d[j] + 1 == depth
    requires forall j :: 0 <= j < |now| && at < j ==> now[j] == was[j]
    requires forall j :: 0 <= j < |now| && next < j <= at ==> now[j] == depth
    ensures Placed(now, d, f, top)
  {
    forall i, t | 0 <= i < |f| - 1 && top < i && f[i] <= t < f[i + 1] && t < |now| ensures now[t] == d[i] + 1 {
      assert f[top + 1] <= f[i];
      if i > above {
        assert f[above + 1] <= f[i];
      } else {
        assert f[i + 1] <= f[above + 1];
      }
    }
  }

  lemma HandingStarts(d: seq<nat>, p: seq<nat>)
    requires 2 <= |d| && Parents(p, |d| - 2, |d| - 2) && Depths(d, p, 0, |d| - 2)
    ensures Handing(d, d, |d| - 2, |d| - 1, |d| - 2, 0, 1)
  {
    assert d[|d|..] == [];
    forall j | 0 <= j < |d| - 2 ensures d[j] >= 1 {
      assert d[j] == d[p[j]] + 1;
    }
  }

  method HandLevel(a: array<nat>, ghost d: seq<nat>, ghost p: seq<nat>, top: int, at: int, ghost above: int,
                   dpth: nat, free: nat)
    returns (avbl: nat, root: int, next: int, ghost last: int)
    requires 2 <= a.Length && Parents(p, a.Length - 2, a.Length - 2) && Depths(d, p, 0, a.Length - 2)
    requires Handing(a[..], d, top, at, above, dpth, free) && free > 0
    modifies a
    ensures Handing(a[..], d, root, next, last, dpth + 1, avbl) && last == top
    ensures forall j :: 0 <= j < a.Length && at < j ==> a[j] == old(a[j])
    ensures forall j :: 0 <= j < a.Length && next < j <= at ==> a[j] == dpth
    ensures -1 <= root < top || (root == top >= -1 && avbl == 0)
  {
    hide KraftSum, Pow2, Depths, Parents, Assigned, LevelState, Spent;
    ghost var m := a.Length - 2;
    RootRange(d, m, top, above, dpth, free);
    if top >= 0 {
      NextIsHere(d, p, m, top, above, dpth, free);
    }
    var used;
    used, root := CountLevel(a, d, top, dpth);
    LevelUse(d, p, m, root, top, above, dpth, free);
    next := PlaceLeaves(a, free, used, dpth, at, root);
    avbl := 2 * used;
    last := top;
  }

  // Count the inner nodes of one level.
  method CountLevel(a: array<nat>, ghost d: seq<nat>, top: int, dpth: nat) returns (used: nat, root: int)
    requires -1 <= top < a.Length == |d| && forall j :: 0 <= j <= top ==> a[j] == d[j]
    ensures -1 <= root <= top && used == top - root
    ensures forall j :: root < j <= top ==> d[j] == dpth
    ensures root >= 0 ==> d[root] != dpth
  {
    used, root := 0, top;
    while root >= 0 && a[root] == dpth
      invariant -1 <= root <= top && used == top - root
      invariant forall j :: root < j <= top ==> d[j] == dpth
      decreases root
    {
      used := used + 1;
      root := root - 1;
    }
  }

  // The places left at one depth are twice as many one deeper.
  lemma SpentDeeper(done: seq<nat>, n: nat, used: nat, depth: nat)
    requires Spent(done, n, used, depth) && depth < n
    ensures Spent(done, n, 2 * used, depth + 1)
  {
    var half := Pow2(n - depth - 1);
    assert used * (2 * half) == 2 * used * half;
  }

  lemma LevelUse(d: seq<nat>, p: seq<nat>, m: nat, root: int, top: int, above: int, depth: nat, avbl: nat)
    requires Parents(p, m, m) && Depths(d, p, 0, m)
    requires LevelState(d, m, top, above, depth, avbl) && -1 <= root <= top
    requires forall j :: root < j <= top ==> d[j] == depth
    requires root >= 0 ==> d[root] != depth
    ensures top - root <= avbl
    ensures LevelState(d, m, root, top, depth + 1, 2 * (top - root))
    ensures top > root ==> depth <= m && depth <= d[0]
    ensures depth == 0 ==> top - root == avbl
  {
    if depth == 0 {
      assert d[m] == 0;
      assert root < m;
      if m >= 1 {
        assert d[m - 1] == d[p[m - 1]] + 1;
      }
    } else {
      if top > root {
        assert d[top] == depth;
      }
      LevelDoubles(p, d, m, root, top, above, depth);
    }
  }

  // Lengths from index `from` on are positive, below `dpth`, and non-increasing.
  ghost predicate Assigned(a: seq<nat>, from: nat, dpth: nat) {
    && (forall i :: from <= i < |a| ==> 1 <= a[i] < dpth)
    && (forall i, j :: from <= i <= j < |a| ==> a[i] >= a[j])
  }

  lemma LongerYet(a: seq<nat>, from: nat, dpth: nat)
    requires Assigned(a, from, dpth)
    ensures Assigned(a, from, dpth + 1)
  {
  }

  lemma LeafAssigned(was: seq<nat>, now: seq<nat>, at: nat, dpth: nat)
    requires Assigned(was, at + 1, dpth + 1) && at < |was| && now == was[at := dpth] && dpth >= 1
    ensures Assigned(now, at, dpth + 1)
  {
  }

  method PlaceLeaves(a: array<nat>, free: nat, used: nat, dpth: nat, at: int, ghost root: int)
    returns (next: int)
    requires used <= free && dpth < a.Length && -1 <= root && root + used + free == at < a.Length
    requires dpth == 0 ==> used == free
    requires Assigned(a[..], at + 1, dpth)
    requires Spent(a[at + 1..], a.Length, free, dpth)
    modifies a
    ensures next == at - (free - used)
    ensures forall j :: 0 <= j <= root ==> a[j] == old(a[j])
    ensures forall j :: at < j < a.Length ==> a[j] == old(a[j])
    ensures forall j :: next < j <= at ==> a[j] == dpth
    ensures Assigned(a[..], next + 1, dpth + 1)
    ensures Spent(a[next + 1..], a.Length, 2 * used, dpth + 1)
  {
    hide Spent, Assigned;
    var avbl := free;
    next := at;
    LongerYet(a[..], at + 1, dpth);
    while avbl > used
      invariant used <= avbl && next == at - (free - avbl)
      invariant forall j :: 0 <= j <= root ==> a[j] == old(a[j])
      invariant forall j :: at < j < a.Length ==> a[j] == old(a[j])
      invariant forall j :: next < j <= at ==> a[j] == dpth
      invariant Assigned(a[..], next + 1, dpth + 1)
      invariant Spent(a[next + 1..], a.Length, avbl, dpth)
    {
      ghost var was, now := a[next + 1..], a[..];
      a[next] := dpth;
      assert a[next..] == [dpth] + was;
      LeafSpent(was, a.Length, avbl, dpth);
      LeafAssigned(now, a[..], next, dpth);
      next := next - 1;
      avbl := avbl - 1;
    }
    SpentDeeper(a[next + 1..], a.Length, used, dpth);
  }

  // A leaf placed at depth `dpth` takes up one free place there.
  lemma LeafSpent(done: seq<nat>, n: nat, free: nat, depth: nat)
    requires Spent(done, n, free, depth) && free > 0
    ensures Spent([depth] + done, n, free - 1, depth)
  {
    assert ([depth] + done)[1..] == done;
    assert free * Pow2(n - depth) == (free - 1) * Pow2(n - depth) + Pow2(n - depth);
  }

  // The whole in-place pass over sorted symbol counts.
  method MinimumRedundancy(a: array<nat>)
    requires a.Length <= 65535
    modifies a
    ensures a.Length == 1 ==> a[0] == 1
    ensures a.Length >= 2 ==> KraftSum(a[..], a.Length) == Pow2(a.Length)
    ensures forall i :: 0 <= i < a.Length ==> 1 <= a[i] && (a.Length >= 2 ==> a[i] < a.Length)
    ensures forall i, j :: 0 <= i <= j < a.Length ==> a[i] >= a[j]
    ensures old(Ordinary(a[..])) ==> forall i :: 0 <= i < a.Length ==> a[i] <= 22
    ensures old(Ordinary(a[..])) && a.Length >= 2 ==> Minimal(old(a[..]), a[..])
  {
    if a.Length == 0 {
      return;
    } else if a.Length == 1 {
      a[0] := 1;
      return;
    }
    MergeAndMeasure(a);
  }

  // The three phases, on two counts or more.
  method MergeAndMeasure(a: array<nat>)
    requires 2 <= a.Length <= 65535
    modifies a
    ensures KraftSum(a[..], a.Length) == Pow2(a.Length)
    ensures forall i :: 0 <= i < a.Length ==> 1 <= a[i] < a.Length
    ensures forall i, j :: 0 <= i <= j < a.Length ==> a[i] >= a[j]
    ensures old(Ordinary(a[..])) ==> Minimal(old(a[..]), a[..]) && forall i :: 0 <= i < a.Length ==> a[i] <= 22
  {
    hide Linked, Rounds, Placed, Minimal, Ordinary, Parents, Depths, KraftSum, Pow2, HeightsOk;
    ghost var l := a[..];
    ghost var heights, w, r, f := LinkParents(a);
    ghost var p := a[..];
    LinksToDepths(a, p);
    ghost var d := a[..];
    DepthsToLengths(a, p, r, f);
    ghost var b := a[..];
    if Ordinary(l) {
      ShallowRoot(p, heights, d);
      AllLeast(p, l, w, d, b, r, f);
    }
  }

  lemma ShallowRoot(p: seq<nat>, h: seq<nat>, d: seq<nat>)
    requires |p| == |d| >= 2 && HeightsOk(p, h, |p| - 2) && Depths(d, p, 0, |p| - 2)
    ensures d[0] <= 21
  {
    DepthPlusHeight(p, h, d, |p| - 2, 0);
  }

  lemma AllLeast(p: seq<nat>, l: seq<nat>, w: seq<nat>, d: seq<nat>, b: seq<nat>, r: seq<nat>, f: seq<nat>)
    requires |p| == |b| == |l| >= 2 && Placed(b, d, f, -1) && Depths(d, p, 0, |p| - 2)
    requires Linked(p, r, f, |p| - 1) && r[|p| - 1] == |p| - 2 && Rounds(l, w, r, f, |p| - 1)
    ensures Minimal(l, b)
  {
    LeavesHang(p, d, b, r, f);
    hide Placed, Depths, Linked, Rounds, Minimal, Hanging;
    LeastCost(p, l, w, d, b, r, f, |p| - 1);
  }

  lemma LeavesHang(p: seq<nat>, d: seq<nat>, b: seq<nat>, r: seq<nat>, f: seq<nat>)
    requires |p| == |b| >= 2 && Placed(b, d, f, -1) && Depths(d, p, 0, |p| - 2)
    requires Linked(p, r, f, |p| - 1) && r[|p| - 1] == |p| - 2
    ensures Hanging(p, d, b, r, f, |p| - 1) && f[|p| - 1] == |b| && d[|p| - 2] == 0
  {
    var k := |p| - 1;
    forall i, j | 0 <= i < k && r[i] <= j < r[i + 1] ensures d[j] == d[i] + 1 {
      InOrder(p, r, f, k, i + 1, k);
      assert p[j] == i;
    }
  }
}
