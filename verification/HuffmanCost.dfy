// The total length of the codes that merging lightest first leaves is the sum of the merged weights, so no lengths
// that fit cost less.
module HuffmanCost {
  import opened HuffmanDepth
  import opened HuffmanOptimal

  // How far the inner nodes and the leaves have been taken before each of k rounds, and which round took which node.
  ghost predicate Linked(p: seq<nat>, r: seq<nat>, f: seq<nat>, k: nat) {
    && |r| == |f| == k + 1 && r[0] == f[0] == 0 && k < |p| && f[k] <= |p|
    && (forall i :: 0 <= i <= k ==> r[i] + f[i] == 2 * i)
    && (forall i :: 1 <= i <= k ==> r[i - 1] <= r[i] < i && f[i - 1] <= f[i])
    && (forall i, j :: 0 <= i < k && r[i] <= j < r[i + 1] ==> p[j] == i)
  }

  // Two items' weights.
  function TwoWeights(l: seq<nat>, w: seq<nat>, r: nat, f: nat, r2: nat): nat
    requires r <= r2 <= r + 2 && r2 <= |w| && f + (r + 2 - r2) <= |l|
  {
    if r2 == r + 2 then w[r] + w[r + 1] else if r2 == r + 1 then w[r] + l[f] else l[f] + l[f + 1]
  }

  // Nothing taken is heavier than what is left.
  ghost predicate Lightest2(l: seq<nat>, w: seq<nat>, i: nat, r: nat, f: nat, r2: nat, f2: nat, c: nat)
    requires r2 <= i <= |w| && f2 <= |l|
  {
    && (forall j :: r <= j < r2 ==> w[j] <= c) && (forall t :: f <= t < f2 ==> l[t] <= c)
    && (forall j :: r2 <= j < i ==> c <= w[j]) && (forall t :: f2 <= t < |l| ==> c <= l[t])
  }

  // Round i merges two items, no heavier than the rest, into inner node i.
  ghost predicate RoundOk(l: seq<nat>, w: seq<nat>, i: nat, r: nat, f: nat, r2: nat, f2: nat) {
    && r <= r2 <= r + 2 && f2 == f + (r + 2 - r2) && r2 <= i < |w| && f2 <= |l|
    && w[i] == TwoWeights(l, w, r, f, r2)
    && exists c :: Lightest2(l, w, i, r, f, r2, f2, c)
  }

  ghost predicate Rounds(l: seq<nat>, w: seq<nat>, r: seq<nat>, f: seq<nat>, k: nat) {
    && |r| == |f| == k + 1 && |w| == k
    && forall i :: 0 <= i < k ==> RoundOk(l, w, i, r[i], f[i], r[i + 1], f[i + 1])
  }

  lemma RoundsGrow(l: seq<nat>, w: seq<nat>, r: seq<nat>, f: seq<nat>, k: nat, v: nat, r2: nat, f2: nat)
    requires Rounds(l, w, r, f, k) && RoundOk(l, w + [v], k, r[k], f[k], r2, f2)
    ensures Rounds(l, w + [v], r + [r2], f + [f2], k + 1)
  {
    forall i | 0 <= i < k ensures RoundOk(l, w + [v], i, r[i], f[i], r[i + 1], f[i + 1]) {
      var c :| Lightest2(l, w, i, r[i], f[i], r[i + 1], f[i + 1], c);
      assert Lightest2(l, w + [v], i, r[i], f[i], r[i + 1], f[i + 1], c);
    }
  }

  lemma FirstRound(l: seq<nat>)
    requires |l| >= 2 && forall i, j :: 0 <= i <= j < |l| ==> l[i] <= l[j]
    ensures Rounds(l, [l[0] + l[1]], [0, 0], [0, 2], 1)
  {
    assert Lightest2(l, [l[0] + l[1]], 0, 0, 0, 0, 2, l[1]);
  }

  // Two picks, the lighter first, and nothing left lighter than the second.
  lemma RoundIs(l: seq<nat>, w: seq<nat>, r: nat, f: nat, r1: nat, f1: nat, r2: nat, f2: nat, x: nat, y: nat)
    requires r <= r1 <= r2 <= |w| && f <= f1 <= f2 <= |l| && x <= y
    requires if r1 == r + 1 then f1 == f && x == w[r] else r1 == r && f1 == f + 1 && x == l[f]
    requires if r2 == r1 + 1 then f2 == f1 && y == w[r1] else r2 == r1 && f2 == f1 + 1 && y == l[f1]
    requires (forall i :: r2 <= i < |w| ==> y <= w[i]) && (forall i :: f2 <= i < |l| ==> y <= l[i])
    ensures RoundOk(l, w + [x + y], |w|, r, f, r2, f2)
  {
    assert Lightest2(l, w + [x + y], |w|, r, f, r2, f2, y);
  }

  lemma LinkedFirst(p: seq<nat>)
    requires |p| >= 2
    ensures Linked(p, [0, 0], [0, 2], 1)
  {
  }

  lemma LinkedGrows(was: seq<nat>, now: seq<nat>, r: seq<nat>, f: seq<nat>, k: nat, r2: nat, f2: nat)
    requires Linked(was, r, f, k) && |now| == |was| && k + 1 < |was| && f2 <= |was|
    requires r[k] <= r2 <= k && f[k] <= f2 && r2 + f2 == 2 * (k + 1)
    requires forall j :: 0 <= j < r[k] ==> now[j] == was[j]
    requires forall j :: r[k] <= j < r2 ==> now[j] == k
    ensures Linked(now, r + [r2], f + [f2], k + 1)
  {
    forall i, j | 0 <= i < k && r[i] <= j < r[i + 1] ensures now[j] == i {
      InOrder(was, r, f, k, i + 1, k);
    }
  }

  lemma LinkedSize(p: seq<nat>, r: seq<nat>, f: seq<nat>, k: nat)
    requires Linked(p, r, f, k)
    ensures |r| == |f| == k + 1
  {
  }

  lemma {:induction false} InOrder(p: seq<nat>, r: seq<nat>, f: seq<nat>, k: nat, i: nat, j: nat)
    requires Linked(p, r, f, k) && i <= j <= k
    ensures r[i] <= r[j] && f[i] <= f[j]
  {
    if i < j {
      InOrder(p, r, f, k, i, j - 1);
    }
  }

  // ---------------------------------------------------------------- no lengths cost less

  // What is still to be merged before round k.
  function Items(l: seq<nat>, w: seq<nat>, r: nat, f: nat, k: nat): seq<nat>
    requires r <= k <= |w| && f <= |l|
  {
    w[r..k] + l[f..]
  }

  lemma RoundBound(l: seq<nat>, w: seq<nat>, i: nat, r: nat, f: nat, r2: nat, f2: nat, h: nat)
    requires RoundOk(l, w, i, r, f, r2, f2) && AtLeast(Items(l, w, r2, f2, i + 1), h) && r <= i
    ensures AtLeast(Items(l, w, r, f, i), h + w[i])
  {
    hide AtLeast, Without, Put, Merged;
    var s, t := Items(l, w, r, f, i), Items(l, w, r2, f2, i + 1);
    var c :| Lightest2(l, w, i, r, f, r2, f2, c);
    var m := i - r;
    if r2 == r + 2 {
      TwoFront(w[r], w[r + 1], w[r2..i], l[f..], w[i]);
      assert s == [w[r]] + ([w[r + 1]] + (w[r2..i] + l[f..])) && t == w[r2..i] + ([w[i]] + l[f..]);
      MergeBound(s, 0, 1, m - 2, h);
    } else if r2 == r + 1 {
      OneEach(w[r], l[f], w[r2..i], l[f2..], w[i]);
      assert s == [w[r]] + (w[r2..i] + ([l[f]] + l[f2..])) && t == w[r2..i] + ([w[i]] + l[f2..]);
      MergeBound(s, 0, m, m - 1, h);
    } else {
      TwoBehind(l[f], l[f + 1], w[r..i], l[f2..], w[i]);
      assert s == w[r..i] + ([l[f]] + ([l[f + 1]] + l[f2..])) && t == w[r..i] + ([w[i]] + l[f2..]);
      MergeBound(s, m, m + 1, m, h);
    }
  }

  lemma TwoFront(x: nat, y: nat, a: seq<nat>, b: seq<nat>, v: nat)
    ensures Merged([x] + ([y] + (a + b)), 0, 1, |a|, v) == a + ([v] + b)
  {
    var s := [x] + ([y] + (a + b));
    assert Without(s, 1) == [x] + (a + b);
    assert Without([x] + (a + b), 0) == a + b;
  }

  lemma OneEach(x: nat, y: nat, a: seq<nat>, b: seq<nat>, v: nat)
    ensures Merged([x] + (a + ([y] + b)), 0, |a| + 1, |a|, v) == a + ([v] + b)
  {
    var s := [x] + (a + ([y] + b));
    assert Without(s, |a| + 1) == [x] + (a + b);
    assert Without([x] + (a + b), 0) == a + b;
  }

  lemma TwoBehind(x: nat, y: nat, a: seq<nat>, b: seq<nat>, v: nat)
    ensures Merged(a + ([x] + ([y] + b)), |a|, |a| + 1, |a|, v) == a + ([v] + b)
  {
    var s := a + ([x] + ([y] + b));
    assert Without(s, |a| + 1) == a + ([x] + b);
    assert Without(a + ([x] + b), |a|) == a + b;
  }

  lemma {:induction false} LowerBound(p: seq<nat>, l: seq<nat>, w: seq<nat>, r: seq<nat>, f: seq<nat>, k: nat, i: nat)
    requires Linked(p, r, f, k) && Rounds(l, w, r, f, k) && i <= k && f[k] <= |l|
    ensures r[i] <= i && f[i] <= |l| && AtLeast(Items(l, w, r[i], f[i], i), Sum(w[i..]))
    decreases k - i
  {
    hide AtLeast, RoundOk, Items, Sum;
    RangeOf(p, r, f, k, i, |l|);
    if i < k {
      LowerBound(p, l, w, r, f, k, i + 1);
      RangeOf(p, r, f, k, i + 1, |l|);
      assert RoundOk(l, w, i, r[i], f[i], r[i + 1], f[i + 1]);
      RoundBound(l, w, i, r[i], f[i], r[i + 1], f[i + 1], Sum(w[i + 1..]));
      SumFirst(w, i);
    } else {
      assert w[i..] == [];
      SumNone();
      NoneLess(Items(l, w, r[i], f[i], i));
    }
  }

  lemma SumNone()
    ensures Sum([]) == 0
  {
  }

  lemma {:induction false} RangeOf(p: seq<nat>, r: seq<nat>, f: seq<nat>, k: nat, i: nat, n: nat)
    requires Linked(p, r, f, k) && i <= k && f[k] <= n
    ensures r[i] <= i && f[i] <= n
    decreases k - i
  {
    if i < k {
      RangeOf(p, r, f, k, i + 1, n);
    }
  }

  // ---------------------------------------------------------------- and these cost no more

  // Inner nodes hang one below their parents, and leaves one below the node that took them.
  ghost predicate Hanging(p: seq<nat>, d: seq<nat>, b: seq<nat>, r: seq<nat>, f: seq<nat>, k: nat) {
    && Linked(p, r, f, k) && |d| >= k && |b| >= f[k]
    && (forall i, j :: 0 <= i < k && r[i] <= j < r[i + 1] ==> d[j] == d[i] + 1)
    && (forall i, t :: 0 <= i < k && f[i] <= t < f[i + 1] && t < |b| ==> b[t] == d[i] + 1)
  }

  // Weight times depth over what is left before round k.
  function Left(l: seq<nat>, w: seq<nat>, d: seq<nat>, b: seq<nat>, r: nat, f: nat, k: nat): nat
    requires r <= k <= |w| && k <= |d| && f <= |l| == |b|
  {
    Cost(w[r..k], d[r..k]) + Cost(l[f..], b[f..])
  }

  lemma FrontCost(s: seq<nat>, b: seq<nat>, i: nat, j: nat)
    requires i < j <= |s| && j <= |b|
    ensures Cost(s[i..j], b[i..j]) == s[i] * b[i] + Cost(s[i + 1..j], b[i + 1..j])
  {
    assert s[i..j][1..] == s[i + 1..j] && b[i..j][1..] == b[i + 1..j];
  }

  lemma FrontCostAll(s: seq<nat>, b: seq<nat>, i: nat)
    requires i < |s| == |b|
    ensures Cost(s[i..], b[i..]) == s[i] * b[i] + Cost(s[i + 1..], b[i + 1..])
  {
    assert s[i..][1..] == s[i + 1..] && b[i..][1..] == b[i + 1..];
  }

  lemma BackCost(s: seq<nat>, b: seq<nat>, i: nat, j: nat)
    requires i <= j < |s| && j < |b|
    ensures Cost(s[i..j + 1], b[i..j + 1]) == Cost(s[i..j], b[i..j]) + s[j] * b[j]
  {
    assert s[i..j + 1] == s[i..j] + [s[j]] && b[i..j + 1] == b[i..j] + [b[j]];
    CostConcat(s[i..j], [s[j]], b[i..j], [b[j]]);
    CostOne(s[j], b[j]);
  }

  lemma OneUp(x: nat, y: nat, d: nat)
    ensures x * (d + 1) + y * (d + 1) == (x + y) + (x + y) * d
  {
  }

  // A round takes its own weight off.
  lemma RoundCost(l: seq<nat>, w: seq<nat>, d: seq<nat>, b: seq<nat>, i: nat, r: nat, f: nat, r2: nat, f2: nat)
    requires RoundOk(l, w, i, r, f, r2, f2) && r <= i < |d| && |l| == |b|
    requires (forall j :: r <= j < r2 ==> d[j] == d[i] + 1) && (forall t :: f <= t < f2 ==> b[t] == d[i] + 1)
    ensures Left(l, w, d, b, r, f, i) == w[i] + Left(l, w, d, b, r2, f2, i + 1)
  {
    hide Cost, Lightest2;
    BackCost(w, d, r2, i);
    if r2 == r + 2 {
      FrontCost(w, d, r, i);
      FrontCost(w, d, r + 1, i);
      OneUp(w[r], w[r + 1], d[i]);
    } else if r2 == r + 1 {
      FrontCost(w, d, r, i);
      FrontCostAll(l, b, f);
      OneUp(w[r], l[f], d[i]);
    } else {
      FrontCostAll(l, b, f);
      FrontCostAll(l, b, f + 1);
      OneUp(l[f], l[f + 1], d[i]);
    }
  }

  lemma {:induction false} CostFrom(p: seq<nat>, l: seq<nat>, w: seq<nat>, d: seq<nat>, b: seq<nat>, r: seq<nat>,
                                    f: seq<nat>, k: nat, i: nat)
    requires Hanging(p, d, b, r, f, k) && Rounds(l, w, r, f, k) && i <= k && f[k] == |l| == |b|
    requires k >= 1 && r[k] == k - 1 && d[k - 1] == 0
    ensures r[i] <= i && f[i] <= |l| && Left(l, w, d, b, r[i], f[i], i) == Sum(w[i..])
    decreases k - i
  {
    hide RoundOk, Left, Sum;
    RangeOf(p, r, f, k, i, |l|);
    if i < k {
      CostFrom(p, l, w, d, b, r, f, k, i + 1);
      assert RoundOk(l, w, i, r[i], f[i], r[i + 1], f[i + 1]);
      RoundCost(l, w, d, b, i, r[i], f[i], r[i + 1], f[i + 1]);
      SumFirst(w, i);
    } else {
      assert w[i..] == [];
      SumNone();
      LastLeft(l, w, d, b, k);
    }
  }

  lemma LastLeft(l: seq<nat>, w: seq<nat>, d: seq<nat>, b: seq<nat>, k: nat)
    requires 1 <= k <= |w| && k <= |d| && d[k - 1] == 0 && |l| == |b|
    ensures Left(l, w, d, b, k - 1, |l|, k) == 0
  {
    assert w[k - 1..k] == [w[k - 1]] && d[k - 1..k] == [0] && l[|l|..] == [] && b[|l|..] == [];
    CostOne(w[k - 1], 0);
  }

  // ---------------------------------------------------------------- least of all

  // No lengths that fit cost less than these.
  ghost predicate Minimal(l: seq<nat>, b: seq<nat>) {
    |l| == |b| && AtLeast(l, Cost(l, b))
  }

  lemma LeastCost(p: seq<nat>, l: seq<nat>, w: seq<nat>, d: seq<nat>, b: seq<nat>, r: seq<nat>, f: seq<nat>, k: nat)
    requires Hanging(p, d, b, r, f, k) && Rounds(l, w, r, f, k) && f[k] == |l| == |b|
    requires k >= 1 && r[k] == k - 1 && d[k - 1] == 0
    ensures Minimal(l, b)
  {
    hide AtLeast, Cost, Sum, RoundOk;
    CostFrom(p, l, w, d, b, r, f, k, 0);
    LowerBound(p, l, w, r, f, k, 0);
    NothingCosts();
    assert w[0..0] == [] && d[0..0] == [] && l[0..] == l && b[0..] == b && [] + l == l;
  }

  lemma NothingCosts()
    ensures Cost([], []) == 0
  {
  }
}
