// Why merging the two lightest items again and again gives the least total length: whatever code lengths fit, they cost
// at least the sum of all the merged weights.
module HuffmanOptimal {
  import opened Bits

  // ---------------------------------------------------------------- lengths that fit, and what they cost

  function Weight(len: nat, scale: nat): nat {
    if len <= scale then Pow2(scale - len) else 0
  }

  // The Kraft sum of code lengths, scaled by 2^scale.
  function KraftSum(lens: seq<nat>, scale: nat): nat {
    if lens == [] then 0 else Weight(lens[0], scale) + KraftSum(lens[1..], scale)
  }

  ghost predicate Feasible(b: seq<nat>, n: nat) {
    (forall i :: 0 <= i < |b| ==> b[i] <= n) && KraftSum(b, n) <= Pow2(n)
  }

  // Weights times lengths, added up.
  function Cost(s: seq<nat>, b: seq<nat>): nat
    requires |s| == |b|
  {
    if s == [] then 0 else s[0] * b[0] + Cost(s[1..], b[1..])
  }

  // No lengths that fit cost less than h.
  ghost predicate AtLeast(s: seq<nat>, h: nat) {
    forall b: seq<nat>, n: nat :: |b| == |s| && Feasible(b, n) ==> h <= Cost(s, b)
  }

  lemma {:induction false} CostConcat(s: seq<nat>, t: seq<nat>, b: seq<nat>, c: seq<nat>)
    requires |s| == |b| && |t| == |c|
    ensures Cost(s + t, b + c) == Cost(s, b) + Cost(t, c)
  {
    if s == [] {
      assert s + t == t && b + c == c;
    } else {
      assert (s + t)[1..] == s[1..] + t && (b + c)[1..] == b[1..] + c;
      CostConcat(s[1..], t, b[1..], c);
    }
  }

  lemma {:induction false} SpaceConcat(b: seq<nat>, c: seq<nat>, n: nat)
    ensures KraftSum(b + c, n) == KraftSum(b, n) + KraftSum(c, n)
  {
    if b == [] {
      assert b + c == c;
    } else {
      assert (b + c)[1..] == b[1..] + c;
      SpaceConcat(b[1..], c, n);
    }
  }

  // ---------------------------------------------------------------- one place taken out

  function Without(s: seq<nat>, i: nat): (r: seq<nat>)
    requires i < |s|
    ensures |r| == |s| - 1
  {
    s[..i] + s[i + 1..]
  }

  function Put(s: seq<nat>, p: nat, v: nat): (r: seq<nat>)
    requires p <= |s|
    ensures |r| == |s| + 1
  {
    s[..p] + [v] + s[p..]
  }

  lemma CostOne(x: nat, y: nat)
    ensures Cost([x], [y]) == x * y
  {
    assert [x][1..] == [] && [y][1..] == [];
  }

  lemma SpaceOne(y: nat, n: nat)
    ensures KraftSum([y], n) == if y <= n then Pow2(n - y) else 0
  {
    assert [y][1..] == [];
  }

  lemma PutSums(s: seq<nat>, b: seq<nat>, p: nat, v: nat, len: nat, n: nat)
    requires |s| == |b| && p <= |s| && len <= n
    ensures Cost(Put(s, p, v), Put(b, p, len)) == Cost(s, b) + v * len
    ensures KraftSum(Put(b, p, len), n) == KraftSum(b, n) + Pow2(n - len)
  {
    hide Cost, KraftSum, Pow2;
    CostConcat(s[..p] + [v], s[p..], b[..p] + [len], b[p..]);
    CostConcat(s[..p], [v], b[..p], [len]);
    CostConcat(s[..p], s[p..], b[..p], b[p..]);
    SpaceConcat(b[..p] + [len], b[p..], n);
    SpaceConcat(b[..p], [len], n);
    SpaceConcat(b[..p], b[p..], n);
    CostOne(v, len);
    SpaceOne(len, n);
    assert s[..p] + s[p..] == s && b[..p] + b[p..] == b;
  }

  lemma WithoutPut(s: seq<nat>, i: nat)
    requires i < |s|
    ensures Put(Without(s, i), i, s[i]) == s
  {
  }

  lemma WithoutSums(s: seq<nat>, b: seq<nat>, i: nat, n: nat)
    requires |s| == |b| && i < |s| && b[i] <= n
    ensures Cost(s, b) == Cost(Without(s, i), Without(b, i)) + s[i] * b[i]
    ensures KraftSum(b, n) == KraftSum(Without(b, i), n) + Pow2(n - b[i])
  {
    hide Cost, KraftSum, Pow2, Without, Put;
    WithoutPut(s, i);
    WithoutPut(b, i);
    PutSums(Without(s, i), Without(b, i), i, s[i], b[i], n);
  }

  // Another length at one place.
  lemma ChangeSums(s: seq<nat>, b: seq<nat>, i: nat, len: nat, n: nat)
    requires |s| == |b| && i < |s| && b[i] <= n && len <= n
    ensures Cost(s, b[i := len]) + s[i] * b[i] == Cost(s, b) + s[i] * len
    ensures KraftSum(b[i := len], n) + Pow2(n - b[i]) == KraftSum(b, n) + Pow2(n - len)
  {
    hide Cost, KraftSum, Pow2;
    WithoutSums(s, b, i, n);
    WithoutSums(s, b[i := len], i, n);
    assert Without(b[i := len], i) == Without(b, i);
  }

  // ---------------------------------------------------------------- longer codes for lighter items

  // Giving the longer length to the lighter item costs no more and takes the same space.
  lemma Exchange(s: seq<nat>, b: seq<nat>, i: nat, p: nat, n: nat) returns (c: seq<nat>)
    requires |s| == |b| && i < |s| && p < |s| && s[i] <= s[p] && b[i] <= b[p] && Feasible(b, n)
    ensures c == b[i := b[p]][p := b[i]] && Feasible(c, n) && Cost(s, c) <= Cost(s, b)
  {
    hide Cost, KraftSum, Pow2;
    c := b[i := b[p]][p := b[i]];
    if i == p {
      assert c == b;
    } else {
      ChangeSums(s, b, i, b[p], n);
      ChangeSums(s, b[i := b[p]], p, b[i], n);
      Crosswise(s[i], s[p], b[i], b[p]);
    }
  }

  lemma Crosswise(x: nat, y: nat, a: nat, b: nat)
    requires x <= y && a <= b
    ensures x * b + y * a <= x * a + y * b
  {
    assert (y - x) * (b - a) >= 0;
  }

  lemma {:induction false} Longest(b: seq<nat>, skip: nat) returns (p: nat)
    requires |b| >= 2 || (|b| == 1 && skip != 0)
    ensures p < |b| && p != skip && forall i :: 0 <= i < |b| && i != skip ==> b[i] <= b[p]
  {
    p := if skip == 0 then 1 else 0;
    for i := 0 to |b|
      invariant p < |b| && p != skip && forall k :: 0 <= k < i && k != skip ==> b[k] <= b[p]
    {
      if i != skip && b[i] > b[p] {
        p := i;
      }
    }
  }

  // ---------------------------------------------------------------- the longest length is not alone

  // Lengths up to m take a multiple of what one of length m takes.
  lemma {:induction false} Multiple(b: seq<nat>, m: nat, n: nat)
    requires m <= n && forall i :: 0 <= i < |b| ==> b[i] <= m
    ensures KraftSum(b, n) == KraftSum(b, m) * Pow2(n - m)
  {
    if b != [] {
      Multiple(b[1..], m, n);
      Pow2Sum(m - b[0], n - m);
      Distribute(Pow2(m - b[0]), KraftSum(b[1..], m), Pow2(n - m));
      hide Pow2;
      assert m - b[0] + (n - m) == n - b[0];
    }
  }

  lemma BelowMultiple(q: nat, v: nat, m: nat, u: nat)
    requires q * u + v <= m * u && v >= 1
    ensures q * u + u <= m * u
  {
    if q >= m {
      AsMuch(m, q, u);
    }
    AsMuch(q + 1, m, u);
    assert (q + 1) * u == q * u + u;
  }

  lemma AsMuch(a: nat, b: nat, u: nat)
    requires a <= b
    ensures a * u <= b * u
  {
  }

  // The longest length can be cut to the next longest and still fits.
  lemma Shorten(s: seq<nat>, b: seq<nat>, i: nat, j: nat, n: nat) returns (c: seq<nat>)
    requires |s| == |b| && i < |s| && j < |s| && i != j && Feasible(b, n)
    requires b[j] <= b[i] && forall k :: 0 <= k < |b| && k != i ==> b[k] <= b[j]
    ensures c == b[i := b[j]] && Feasible(c, n) && Cost(s, c) <= Cost(s, b)
  {
    hide Cost, KraftSum, Pow2;
    var m, rest := b[j], Without(b, i);
    c := b[i := m];
    WithoutSums(s, b, i, n);
    WithoutSums(s, c, i, n);
    assert Without(c, i) == rest;
    Multiple(rest, m, n);
    Pow2Sum(m, n - m);
    BelowMultiple(KraftSum(rest, m), Pow2(n - b[i]), Pow2(m), Pow2(n - m));
    Cheaper(s[i], m, b[i]);
  }

  lemma Cheaper(x: nat, m: nat, k: nat)
    requires m <= k
    ensures x * m <= x * k
  {
  }

  lemma TwoTooMany(b: seq<nat>, i: nat, j: nat, n: nat)
    requires i < |b| && j < |b| && i != j && Feasible(b, n)
    ensures b[i] != 0 || b[j] != 0
  {
    hide Cost, KraftSum, Pow2;
    if b[i] == 0 && b[j] == 0 {
      WithoutSums(b, b, i, n);
      var c, k := Without(b, i), if j < i then j else j - 1;
      assert c[k] == 0;
      WithoutSums(c, c, k, n);
    }
  }

  // ---------------------------------------------------------------- merging

  // What two places leave, with one item more at p.
  function Merged(s: seq<nat>, i: nat, j: nat, p: nat, v: nat): seq<nat>
    requires i < j < |s| && p + 2 <= |s|
  {
    Put(Without(Without(s, j), i), p, v)
  }

  lemma MergedSums(s: seq<nat>, b: seq<nat>, i: nat, j: nat, p: nat, m: nat, n: nat)
    requires |s| == |b| && i < j < |s| && p + 2 <= |s| && b[i] == b[j] == m && 1 <= m <= n
    ensures Cost(s, b) == Cost(Merged(s, i, j, p, s[i] + s[j]), Merged(b, i, j, p, m - 1)) + s[i] + s[j]
    ensures KraftSum(Merged(b, i, j, p, m - 1), n) == KraftSum(b, n)
  {
    WithoutSums(s, b, j, n);
    var t, c := Without(s, j), Without(b, j);
    assert t[i] == s[i] && c[i] == b[i];
    WithoutSums(t, c, i, n);
    var t2, c2 := Without(t, i), Without(c, i);
    PutSums(t2, c2, p, s[i] + s[j], m - 1, n);
    hide Cost, KraftSum;
    assert Pow2(n - (m - 1)) == 2 * Pow2(n - m);
    hide Pow2;
    OneLess(s[i], s[j], m);
  }

  lemma OneLess(x: nat, y: nat, m: nat)
    requires m >= 1
    ensures x * m + y * m == (x + y) * (m - 1) + x + y
  {
  }

  lemma MergedFits(b: seq<nat>, i: nat, j: nat, p: nat, m: nat, n: nat)
    requires i < j < |b| && p + 2 <= |b| && (forall k :: 0 <= k < |b| ==> b[k] <= n) && m <= n
    ensures var c := Merged(b, i, j, p, m); |c| == |b| - 1 && forall k :: 0 <= k < |c| ==> c[k] <= n
  {
    var c := Without(b, j);
    assert forall k :: 0 <= k < |c| ==> c[k] <= n;
    var c2 := Without(c, i);
    assert forall k :: 0 <= k < |c2| ==> c2[k] <= n;
  }

  // If nothing cheaper than h is possible once the two lightest items are one, nothing cheaper than h and their weight
  // is possible before.
  lemma MergeBound(s: seq<nat>, i: nat, j: nat, p: nat, h: nat)
    requires i < j < |s| && p + 2 <= |s|
    requires forall k :: 0 <= k < |s| && k != i && k != j ==> s[i] <= s[k] && s[j] <= s[k]
    requires AtLeast(Merged(s, i, j, p, s[i] + s[j]), h)
    ensures AtLeast(s, h + s[i] + s[j])
  {
    var t := Merged(s, i, j, p, s[i] + s[j]);
    forall b: seq<nat>, n: nat | |b| == |s| && Feasible(b, n) ensures h + s[i] + s[j] <= Cost(s, b) {
      var c, m := Lightest(s, b, i, j, n);
      MergedSums(s, c, i, j, p, m, n);
      MergedFits(c, i, j, p, m - 1, n);
      assert Feasible(Merged(c, i, j, p, m - 1), n);
    }
  }

  // The two lightest get the same length, no shorter than any other, at no cost.
  lemma Lightest(s: seq<nat>, b: seq<nat>, i: nat, j: nat, n: nat) returns (c: seq<nat>, m: nat)
    requires |s| == |b| && i < j < |s| && Feasible(b, n)
    requires forall k :: 0 <= k < |s| && k != i && k != j ==> s[i] <= s[k] && s[j] <= s[k]
    ensures |c| == |s| && Feasible(c, n) && Cost(s, c) <= Cost(s, b) && c[i] == c[j] == m && 1 <= m <= n
  {
    hide Cost, KraftSum, Feasible;
    var x, y := if s[i] <= s[j] then i else j, if s[i] <= s[j] then j else i;
    var p := Longest(b, |b|);
    c := Exchange(s, b, x, p, n);
    assert forall k :: 0 <= k < |c| ==> c[k] <= c[x];
    var q := Longest(c, x);
    var c1 := c;
    c := Exchange(s, c, y, q, n);
    assert c[x] == c1[x] && forall k :: 0 <= k < |c| && k != x ==> c[k] <= c[y];
    c := Shorten(s, c, x, y, n);
    m := c[y];
    TwoTooMany(c, i, j, n);
    InRange(c, i, n);
  }

  lemma InRange(c: seq<nat>, i: nat, n: nat)
    requires Feasible(c, n) && i < |c|
    ensures c[i] <= n
  {
  }

  // A single item costs nothing at least.
  lemma NoneLess(s: seq<nat>)
    ensures AtLeast(s, 0)
  {
  }
}
