// Limiting code lengths, as tdefl_huffman_enforce_max_code_size() does in libjade/miniz.c, on the
// number of codes of each length.
module HuffmanLimit {
  import opened Bits

  const MAX_DEPTH := 32

  // How many codes have a length of 1 up to `hi`.
  function Total(counts: seq<int>, hi: nat): int
    requires hi < |counts|
  {
    if hi == 0 then 0 else Total(counts, hi - 1) + counts[hi]
  }

  // Their Kraft sum scaled by 2^scale.
  function Weighted(counts: seq<int>, hi: nat, scale: nat): int
    requires hi < |counts| && hi <= scale
  {
    if hi == 0 then 0 else Weighted(counts, hi - 1, scale) + counts[hi] * Pow2(scale - hi)
  }

  ghost predicate NonNegative(counts: seq<int>, hi: nat) {
    hi < |counts| && forall i :: 0 <= i <= hi ==> counts[i] >= 0
  }

  lemma {:induction false} TotalUpdate(counts: seq<int>, hi: nat, k: nat, v: int)
    requires hi < |counts| && 1 <= k < |counts|
    ensures Total(counts[k := v], hi) == Total(counts, hi) + (if k <= hi then v - counts[k] else 0)
  {
    if hi > 0 {
      TotalUpdate(counts, hi - 1, k, v);
    }
  }

  lemma {:induction false} WeightedUpdate(counts: seq<int>, hi: nat, scale: nat, k: nat, delta: int)
    requires hi < |counts| && hi <= scale && 1 <= k < |counts|
    ensures Weighted(counts[k := counts[k] + delta], hi, scale)
            == Weighted(counts, hi, scale) + (if k <= hi then delta * Pow2(scale - k) else 0)
  {
    if hi > 0 {
      WeightedUpdate(counts, hi - 1, scale, k, delta);
      if k == hi {
        assert (counts[k] + delta) * Pow2(scale - k) == counts[k] * Pow2(scale - k) + delta * Pow2(scale - k);
      }
    }
  }

  lemma {:induction false} WeightedScale(counts: seq<int>, hi: nat, scale: nat)
    requires hi < |counts| && hi <= scale
    ensures Weighted(counts, hi, scale + 1) == 2 * Weighted(counts, hi, scale)
  {
    if hi > 0 {
      WeightedScale(counts, hi - 1, scale);
      var p := Pow2(scale - hi);
      assert Pow2(scale + 1 - hi) == 2 * p;
      assert counts[hi] * (2 * p) == 2 * (counts[hi] * p);
    }
  }

  lemma {:induction false} WeightedRescale(counts: seq<int>, hi: nat, scale: nat, up: nat)
    requires hi < |counts| && hi <= scale
    ensures Weighted(counts, hi, scale + up) == Pow2(up) * Weighted(counts, hi, scale)
  {
    if up > 0 {
      WeightedRescale(counts, hi, scale, up - 1);
      WeightedScale(counts, hi, scale + up - 1);
      var w := Weighted(counts, hi, scale);
      assert 2 * (Pow2(up - 1) * w) == Pow2(up) * w;
    }
  }

  // Every code weighs at least one unit; codes shorter than the scale weigh at least two.
  lemma {:induction false} WeightedAtLeast(counts: seq<int>, hi: nat, scale: nat)
    requires NonNegative(counts, hi) && hi < scale
    ensures Weighted(counts, hi, scale) >= 2 * Total(counts, hi) >= 0
  {
    if hi > 0 {
      WeightedAtLeast(counts, hi - 1, scale);
      var c, p := counts[hi], Pow2(scale - hi);
      assert p >= 2;
      assert c * p >= c * 2 by { MulMono(c, 2, p); }
    }
  }

  lemma MulMono(c: int, x: int, y: int)
    requires c >= 0 && x <= y
    ensures c * x <= c * y
  {
  }

  // The codes beyond `max`: together they weigh less than half of what they would at `max`.
  lemma {:induction false} TailWeight(counts: seq<int>, max: nat, hi: nat, scale: nat)
    requires NonNegative(counts, hi) && max < hi <= scale
    ensures 0 <= 2 * (Weighted(counts, hi, scale) - Weighted(counts, max, scale))
              <= (Total(counts, hi) - Total(counts, max)) * Pow2(scale - max)
    ensures Total(counts, hi) - Total(counts, max) > 0 ==> Weighted(counts, hi, scale) > Weighted(counts, max, scale)
    ensures Total(counts, hi) >= Total(counts, max)
  {
    hide Pow2;
    var c, p, q := counts[hi], Pow2(scale - hi), Pow2(scale - max);
    assert 2 * p <= q by { HalfOrLess(scale - hi, scale - max); }
    var h, w := 0, 0;
    if hi > max + 1 {
      TailWeight(counts, max, hi - 1, scale);
      h := Total(counts, hi - 1) - Total(counts, max);
      w := Weighted(counts, hi - 1, scale) - Weighted(counts, max, scale);
    }
    TailArith(c, p, q, h, w);
  }

  lemma HalfOrLess(a: nat, b: nat)
    requires a < b
    ensures 2 * Pow2(a) <= Pow2(b)
  {
    Pow2Monotone(a + 1, b);
  }

  lemma TailArith(c: int, p: int, q: int, h: int, w: int)
    requires c >= 0 && p >= 1 && 2 * p <= q && h >= 0 && 0 <= 2 * w <= h * q && (h > 0 ==> w > 0)
    ensures 0 <= 2 * (w + c * p) <= (h + c) * q && (h + c > 0 ==> w + c * p > 0)
  {
    MulMono(c, 2 * p, q);
    assert c * (2 * p) == 2 * (c * p);
    MulMono(c, 1, p);
    assert (h + c) * q == h * q + c * q;
  }

  // Folding an unlimited complete code into `max`: the excess over 2^max is below the fold.
  lemma FoldExcess(counts: seq<int>, max: nat)
    requires NonNegative(counts, MAX_DEPTH) && 1 <= max < MAX_DEPTH
    requires Weighted(counts, MAX_DEPTH, MAX_DEPTH) == Pow2(MAX_DEPTH)
    ensures var fold := Total(counts, MAX_DEPTH) - Total(counts, max);
            var total := Weighted(counts, max, max) + fold;
            Pow2(max) <= total && (fold > 0 ==> total < Pow2(max) + fold) && (fold == 0 ==> total == Pow2(max))
            && fold >= 0
  {
    hide Pow2, Weighted, Total;
    var up := MAX_DEPTH - max;
    var q, t0 := Pow2(up), Weighted(counts, max, max);
    var fold := Total(counts, MAX_DEPTH) - Total(counts, max);
    WeightedRescale(counts, max, max, up);
    TailWeight(counts, max, MAX_DEPTH, MAX_DEPTH);
    Pow2Sum(max, up);
    var tail := Weighted(counts, MAX_DEPTH, MAX_DEPTH) - q * t0;
    var g := Pow2(max) - t0;
    assert tail == q * g by { assert q * g == q * Pow2(max) - q * t0; }
    FoldArith(q, g, tail, fold);
  }

  lemma FoldArith(q: int, g: int, tail: int, fold: int)
    requires q >= 1 && tail == q * g && 0 <= 2 * tail <= fold * q && (fold > 0 ==> tail > 0) && fold >= 0
    ensures 0 <= g && 2 * g <= fold && (fold > 0 ==> g >= 1)
  {
    DivMono(q, 0, g);
    assert q * (2 * g) == 2 * (q * g);
    DivMono(q, 2 * g, fold);
    if g == 0 {
      assert tail == 0;
    }
  }

  lemma DivMono(q: int, x: int, y: int)
    requires q >= 1 && q * x <= q * y
    ensures x <= y
  {
    if x > y {
      MulMono(q, y + 1, x);
    }
  }

  // What the limiter's loop keeps: `total` is the Kraft sum, and `max` holds enough to give up.
  ghost predicate Limiting(counts: seq<int>, max: nat, n: int, total: int) {
    && NonNegative(counts, max) && 1 <= max
    && Total(counts, max) == n && Weighted(counts, max, max) == total
    && Pow2(max) <= total && (total > Pow2(max) ==> counts[max] > total - Pow2(max))
  }

  // Fold everything longer than `max` into `max`.
  method Fold(counts: array<int>, max: nat)
    requires counts.Length == MAX_DEPTH + 1 && 1 <= max < MAX_DEPTH && NonNegative(counts[..], MAX_DEPTH)
    modifies counts
    ensures counts[max] == old(counts[max] + Total(counts[..], MAX_DEPTH) - Total(counts[..], max))
    ensures forall i :: 0 <= i <= MAX_DEPTH && i != max ==> counts[i] == old(counts[i])
  {
    ghost var was := counts[..];
    var i := max + 1;
    while i <= MAX_DEPTH
      invariant max + 1 <= i <= MAX_DEPTH + 1
      invariant counts[max] == was[max] + Total(was, i - 1) - Total(was, max)
      invariant forall j :: 0 <= j <= MAX_DEPTH && j != max ==> counts[j] == was[j]
    {
      counts[max] := counts[max] + counts[i];
      i := i + 1;
    }
  }

  // The Kraft sum scaled by 2^max, summed from the longest length down.
  method SumWeights(counts: array<int>, max: nat) returns (total: int)
    requires 1 <= max < counts.Length
    ensures total == Weighted(counts[..], max, max)
  {
    total := 0;
    var i := max;
    while i > 0
      invariant 0 <= i <= max
      invariant total + Weighted(counts[..], i, max) == Weighted(counts[..], max, max)
    {
      total := total + counts[i] * Pow2(max - i);
      i := i - 1;
    }
  }

  // While the sum is too high, some code is shorter than `max`.
  lemma {:induction false} ShorterExists(counts: seq<int>, max: nat, hi: nat)
    requires NonNegative(counts, hi) && hi < max && forall i :: 1 <= i <= hi ==> counts[i] == 0
    ensures Weighted(counts, hi, max) == 0 && Total(counts, hi) == 0
  {
    if hi > 0 {
      ShorterExists(counts, max, hi - 1);
    }
  }

  // One trade: a code at `max` goes away and one at `i` becomes two at `i + 1`.
  function Traded(counts: seq<int>, max: nat, i: nat): seq<int>
    requires 1 <= i < max < |counts|
  {
    var a := counts[max := counts[max] + -1];
    var b := a[i := a[i] + -1];
    b[i + 1 := b[i + 1] + 2]
  }

  lemma TradeStep(counts: seq<int>, max: nat, i: nat, n: int, total: int)
    requires Limiting(counts, max, n, total) && total > Pow2(max)
    requires 1 <= i < max && counts[i] > 0
    ensures Limiting(Traded(counts, max, i), max, n, total - 1)
  {
    hide Weighted, Total;
    var a := counts[max := counts[max] + -1];
    var b := a[i := a[i] + -1];
    TotalUpdate(counts, max, max, counts[max] + -1);
    TotalUpdate(a, max, i, a[i] + -1);
    TotalUpdate(b, max, i + 1, b[i + 1] + 2);
    WeightedUpdate(counts, max, max, max, -1);
    WeightedUpdate(a, max, max, i, -1);
    WeightedUpdate(b, max, max, i + 1, 2);
    assert Pow2(max - i) == 2 * Pow2(max - (i + 1));
  }

  // The limiter: for a complete code of at most 2^max symbols it restores a Kraft sum of exactly one.
  method EnforceMaxCodeSize(counts: array<int>, listLen: int, max: nat)
    requires counts.Length == MAX_DEPTH + 1 && 1 <= max < MAX_DEPTH && NonNegative(counts[..], MAX_DEPTH)
    requires listLen == Total(counts[..], MAX_DEPTH) <= Pow2(max)
    requires listLen > 1 ==> Weighted(counts[..], MAX_DEPTH, MAX_DEPTH) == Pow2(MAX_DEPTH)
    modifies counts
    ensures listLen <= 1 ==> counts[..] == old(counts[..])
    ensures listLen > 1 ==> NonNegative(counts[..], max) && Total(counts[..], max) == listLen
                            && Weighted(counts[..], max, max) == Pow2(max)
  {
    if listLen <= 1 {
      return;
    }
    hide Weighted, Total;
    ghost var was := counts[..];
    FoldExcess(was, max);
    Fold(counts, max);
    FoldTotals(was, counts[..], max);
    var total := SumWeights(counts, max);
    while total != Pow2(max)
      invariant Limiting(counts[..], max, listLen, total)
      decreases total
    {
      total := TradeOne(counts, max, listLen, total);
    }
  }

  lemma FoldTotals(was: seq<int>, now: seq<int>, max: nat)
    requires |was| == |now| == MAX_DEPTH + 1 && 1 <= max < MAX_DEPTH && NonNegative(was, MAX_DEPTH)
    requires now[max] == was[max] + Total(was, MAX_DEPTH) - Total(was, max)
    requires forall i :: 0 <= i <= MAX_DEPTH && i != max ==> now[i] == was[i]
    requires Total(was, MAX_DEPTH) >= Total(was, max)
    ensures NonNegative(now, max) && Total(now, max) == Total(was, MAX_DEPTH)
    ensures Weighted(now, max, max) == Weighted(was, max, max) + Total(was, MAX_DEPTH) - Total(was, max)
  {
    hide Weighted, Total;
    var fold := Total(was, MAX_DEPTH) - Total(was, max);
    assert now == was[max := was[max] + fold];
    TotalUpdate(was, max, max, was[max] + fold);
    WeightedUpdate(was, max, max, max, fold);
    assert Pow2(0) == 1;
  }

  method TradeOne(counts: array<int>, max: nat, ghost n: int, total: int) returns (rest: int)
    requires counts.Length == MAX_DEPTH + 1 && max < MAX_DEPTH
    requires Limiting(counts[..], max, n, total) && total > Pow2(max) && n <= Pow2(max)
    modifies counts
    ensures rest == total - 1 && Limiting(counts[..], max, n, rest)
  {
    hide Weighted, Total, Limiting;
    ghost var was := counts[..];
    CanTrade(was, max, n, total);
    counts[max] := counts[max] - 1;
    var i := max - 1;
    while i > 0 && counts[i] == 0
      invariant 0 <= i < max
      invariant forall j :: i < j < max ==> was[j] == 0
    {
      i := i - 1;
    }
    if i > 0 {
      counts[i] := counts[i] - 1;
      counts[i + 1] := counts[i + 1] + 2;
      assert counts[..] == Traded(was, max, i);
      TradeStep(was, max, i, n, total);
    }
    rest := total - 1;
  }

  lemma CanTrade(counts: seq<int>, max: nat, n: int, total: int)
    requires Limiting(counts, max, n, total) && total > Pow2(max) && n <= Pow2(max)
    ensures exists i :: 1 <= i < max && counts[i] > 0
    ensures forall i :: 0 <= i <= max ==> counts[i] >= 0
    ensures max < |counts|
  {
    assert Pow2(0) == 1;
    if forall i :: 1 <= i < max ==> counts[i] <= 0 {
      ShorterExists(counts, max, max - 1);
    }
  }
}
