// tdefl_optimize_huffman_table() in libjade/miniz.c: from symbol counts to limited code lengths and
// canonical codes that the decoder's tables read back.
module HuffmanEncoder {
  import opened Bits
  import opened CanonicalCode
  import opened InflateTables
  import opened InflateSymbols
  import HuffmanDepth
  import opened HuffmanOptimal
  import opened HuffmanLengths
  import opened HuffmanLimit
  import opened RadixSort

  // ---------------------------------------------------------------- facts about used symbols

  function Keys(s: seq<SymFreq>): seq<nat> {
    if s == [] then [] else [s[0].key] + Keys(s[1..])
  }

  lemma {:induction false} KeysAt(s: seq<SymFreq>)
    ensures |Keys(s)| == |s| && forall i :: 0 <= i < |s| ==> Keys(s)[i] == s[i].key
  {
    if s != [] {
      KeysAt(s[1..]);
    }
  }

  function SumKeys(s: seq<SymFreq>): nat {
    if s == [] then 0 else s[0].key + SumKeys(s[1..])
  }

  lemma {:induction false} SumOfKeys(s: seq<SymFreq>)
    ensures HuffmanDepth.Sum(Keys(s)) == SumKeys(s)
  {
    if s != [] {
      SumOfKeys(s[1..]);
      assert Keys(s)[1..] == Keys(s[1..]);
    }
  }

  lemma {:induction false} SumKeysConcat(s: seq<SymFreq>, t: seq<SymFreq>)
    ensures SumKeys(s + t) == SumKeys(s) + SumKeys(t)
  {
    if s == [] {
      assert s + t == t;
    } else {
      SumKeysConcat(s[1..], t);
      assert (s + t)[1..] == s[1..] + t;
    }
  }

  // Reordering keeps the total.
  lemma {:induction false} SumKeysPermuted(s: seq<SymFreq>, t: seq<SymFreq>)
    requires multiset(s) == multiset(t)
    ensures SumKeys(s) == SumKeys(t)
  {
    hide SumKeys;
    if s == [] {
      assert |multiset(t)| == |t|;
      assert t == [];
    } else {
      var j := FindIn(s[0], s, t);
      var rest := t[..j] + t[j + 1..];
      DropAt(t, j);
      DropAt(s, 0);
      assert s[..0] + s[1..] == s[1..];
      SumKeysPermuted(s[1..], rest);
    }
  }

  lemma FindIn(x: SymFreq, s: seq<SymFreq>, t: seq<SymFreq>) returns (j: nat)
    requires x in s && multiset(s) == multiset(t)
    ensures j < |t| && t[j] == x
  {
    assert x in multiset(s);
    j :| 0 <= j < |t| && t[j] == x;
  }

  lemma DropAt(t: seq<SymFreq>, j: nat)
    requires j < |t|
    ensures multiset(t[..j] + t[j + 1..]) == multiset(t) - multiset{t[j]}
    ensures SumKeys(t) == SumKeys(t[..j] + t[j + 1..]) + t[j].key
  {
    hide SumKeys;
    var front, back := t[..j], t[j + 1..];
    assert t == front + ([t[j]] + back);
    TakenOut(front, t[j], back);
    SumKeysConcat(front, back);
    SumKeysConcat(front, [t[j]] + back);
    SumKeysFront(t[j], back);
  }

  lemma TakenOut(front: seq<SymFreq>, x: SymFreq, back: seq<SymFreq>)
    ensures multiset(front + back) == multiset(front + ([x] + back)) - multiset{x}
  {
  }

  lemma SumKeysFront(x: SymFreq, back: seq<SymFreq>)
    ensures SumKeys([x] + back) == x.key + SumKeys(back)
  {
    assert ([x] + back)[1..] == back;
  }

  ghost predicate DistinctSyms(s: seq<SymFreq>) {
    forall i, j :: 0 <= i < j < |s| ==> s[i].sym != s[j].sym
  }

  lemma {:induction false} OnceEach(s: seq<SymFreq>, x: SymFreq)
    requires DistinctSyms(s)
    ensures multiset(s)[x] <= 1
  {
    if s != [] {
      var n := |s| - 1;
      OnceEach(s[..n], x);
      assert s == s[..n] + [s[n]];
      if s[n] == x {
        assert x !in s[..n];
      }
    }
  }

  // Reordering keeps symbols distinct.
  lemma DistinctPermuted(s: seq<SymFreq>, t: seq<SymFreq>)
    requires multiset(s) == multiset(t) && DistinctSyms(s)
    ensures DistinctSyms(t)
  {
    forall i, j | 0 <= i < j < |t| ensures t[i].sym != t[j].sym {
      assert t[i] in multiset(t) && t[j] in multiset(t);
      assert t[i] in s && t[j] in s;
      OnceEach(s, t[i]);
      TwiceIn(t, i, j);
    }
  }

  lemma TwiceIn(t: seq<SymFreq>, i: nat, j: nat)
    requires i < j < |t|
    ensures t[i] == t[j] ==> multiset(t)[t[i]] >= 2
  {
    assert t == t[..j] + ([t[j]] + t[j + 1..]);
    assert t[i] in t[..j];
  }

  // The items of a symbol-count vector that are in use, each once.
  ghost predicate Uses(counts: seq<nat>, n: nat, s: seq<SymFreq>) {
    && n <= |counts| && DistinctSyms(s)
    && (forall i :: 0 <= i < |s| ==> s[i].sym < n && s[i].key == counts[s[i].sym] > 0)
    && (forall k :: 0 <= k < n && counts[k] > 0 ==> SymFreq(counts[k], k) in s)
  }

  lemma UsesPermuted(counts: seq<nat>, n: nat, s: seq<SymFreq>, t: seq<SymFreq>)
    requires Uses(counts, n, s) && multiset(s) == multiset(t)
    ensures Uses(counts, n, t)
  {
    DistinctPermuted(s, t);
    forall i | 0 <= i < |t| ensures t[i].sym < n && t[i].key == counts[t[i].sym] > 0 {
      assert t[i] in multiset(t);
      assert t[i] in s;
    }
    forall k | 0 <= k < n && counts[k] > 0 ensures SymFreq(counts[k], k) in t {
      assert SymFreq(counts[k], k) in multiset(s);
    }
  }

  lemma SortedUsesOrdinary(counts: seq<nat>, s: seq<SymFreq>)
    requires Uses(counts, |counts|, s) && SortedByKey(s) && SumKeys(s) <= 65535
    ensures HuffmanDepth.Ordinary(Keys(s))
  {
    KeysAt(s);
    SumOfKeys(s);
  }

  method CollectUsed(counts: seq<nat>, syms: array<SymFreq>) returns (n: nat)
    requires syms.Length >= |counts| && HuffmanDepth.Sum(counts) <= 65535
    modifies syms
    ensures n <= |counts| && Uses(counts, |counts|, syms[..n]) && Keys16(syms[..n])
    ensures SumKeys(syms[..n]) <= 65535
  {
    hide Uses, SumKeys, HuffmanDepth.Sum;
    n := 0;
    assert counts[0..] == counts;
    UsesNothing(counts);
    for i := 0 to |counts|
      invariant n <= i && Uses(counts, i, syms[..n])
      invariant SumKeys(syms[..n]) + HuffmanDepth.Sum(counts[i..]) <= 65535
    {
      HuffmanDepth.SumFirst(counts, i);
      if counts[i] > 0 {
        ghost var was := syms[..n];
        UseOne(counts, i, was);
        syms[n] := SymFreq(counts[i], i);
        n := n + 1;
        assert syms[..n] == was + [SymFreq(counts[i], i)];
      } else {
        UseNone(counts, i, syms[..n]);
      }
    }
    KeysBelowSum(syms[..n]);
    assert counts[|counts|..] == [];
  }

  lemma UsesNothing(counts: seq<nat>)
    ensures Uses(counts, 0, []) && SumKeys([]) == 0
  {
  }

  lemma UseOne(counts: seq<nat>, i: nat, s: seq<SymFreq>)
    requires i < |counts| && counts[i] > 0 && Uses(counts, i, s)
    ensures var x := SymFreq(counts[i], i);
            Uses(counts, i + 1, s + [x]) && SumKeys(s + [x]) == SumKeys(s) + counts[i]
  {
    var x := SymFreq(counts[i], i);
    SumKeysConcat(s, [x]);
    assert [x][1..] == [];
    forall k | 0 <= k < i + 1 && counts[k] > 0 ensures SymFreq(counts[k], k) in s + [x] {
      if k < i {
        assert SymFreq(counts[k], k) in s;
      }
    }
  }

  lemma UseNone(counts: seq<nat>, i: nat, s: seq<SymFreq>)
    requires i < |counts| && counts[i] == 0 && Uses(counts, i, s)
    ensures Uses(counts, i + 1, s)
  {
  }

  lemma {:induction false} KeysBelowSum(s: seq<SymFreq>)
    ensures forall i :: 0 <= i < |s| ==> s[i].key <= SumKeys(s)
  {
    if s != [] {
      KeysBelowSum(s[1..]);
    }
  }

  // ---------------------------------------------------------------- counting lengths

  lemma {:induction false} KraftUp(lens: seq<nat>, scale: nat)
    requires forall i :: 0 <= i < |lens| ==> lens[i] <= scale
    ensures KraftSum(lens, scale + 1) == 2 * KraftSum(lens, scale)
  {
    if lens != [] {
      KraftUp(lens[1..], scale);
    }
  }

  // A Kraft sum of one stays one when the scale moves.
  lemma {:induction false} KraftOneUp(lens: seq<nat>, a: nat, b: nat)
    requires a <= b && forall i :: 0 <= i < |lens| ==> lens[i] <= a
    ensures KraftSum(lens, a) == Pow2(a) <==> KraftSum(lens, b) == Pow2(b)
  {
    if a < b {
      KraftOneUp(lens, a, b - 1);
      KraftUp(lens, b - 1);
    }
  }

  lemma {:induction false} KraftAppend(lens: seq<nat>, x: nat, scale: nat)
    ensures KraftSum(lens + [x], scale) == KraftSum(lens, scale) + Weight(x, scale)
  {
    if lens == [] {
      assert lens + [x] == [x];
    } else {
      KraftAppend(lens[1..], x, scale);
      assert (lens + [x])[1..] == lens[1..] + [x];
    }
  }

  lemma {:induction false} ZeroCounts(counts: seq<int>, hi: nat, scale: nat)
    requires hi < |counts| && hi <= scale && forall i :: 0 <= i < |counts| ==> counts[i] == 0
    ensures Total(counts, hi) == 0 && Weighted(counts, hi, scale) == 0
  {
    if hi > 0 {
      ZeroCounts(counts, hi - 1, scale);
    }
  }

  // What num_codes[] holds: how many lengths, and their Kraft sum.
  ghost predicate Tallied(lens: seq<nat>, nums: seq<int>) {
    && |nums| == MAX_DEPTH + 1 && NonNegative(nums, MAX_DEPTH)
    && Total(nums, MAX_DEPTH) == |lens|
    && Weighted(nums, MAX_DEPTH, MAX_DEPTH) == KraftSum(lens, MAX_DEPTH)
    && (forall l :: 0 <= l <= MAX_DEPTH && nums[l] > 0 ==> l in lens)
  }

  lemma TallyOne(lens: seq<nat>, nums: seq<int>, x: nat)
    requires Tallied(lens, nums) && 1 <= x <= MAX_DEPTH
    ensures Tallied(lens + [x], nums[x := nums[x] + 1])
  {
    KraftAppend(lens, x, MAX_DEPTH);
    TotalUpdate(nums, MAX_DEPTH, x, nums[x] + 1);
    WeightedUpdate(nums, MAX_DEPTH, MAX_DEPTH, x, 1);
  }

  method TallyLengths(lens: array<nat>) returns (nums: array<int>)
    requires forall i :: 0 <= i < lens.Length ==> 1 <= lens[i] <= MAX_DEPTH
    ensures fresh(nums) && Tallied(lens[..], nums[..])
  {
    hide Tallied;
    nums := new int[MAX_DEPTH + 1](_ => 0);
    TallyNone(nums[..]);
    assert lens[..0] == [];
    for i := 0 to lens.Length
      invariant fresh(nums) && nums.Length == MAX_DEPTH + 1 && Tallied(lens[..i], nums[..])
    {
      ghost var was := nums[..];
      TallyOne(lens[..i], was, lens[i]);
      nums[lens[i]] := nums[lens[i]] + 1;
      assert nums[..] == was[lens[i] := was[lens[i]] + 1];
      assert lens[..i + 1] == lens[..i] + [lens[i]];
    }
    assert lens[..lens.Length] == lens[..];
  }

  lemma TallyNone(nums: seq<int>)
    requires |nums| == MAX_DEPTH + 1 && forall i :: 0 <= i < |nums| ==> nums[i] == 0
    ensures Tallied([], nums)
  {
    ZeroCounts(nums, MAX_DEPTH, MAX_DEPTH);
  }

  // ---------------------------------------------------------------- handing out the lengths

  lemma {:induction false} CountUpdate(sizes: seq<nat>, n: nat, s: nat, v: nat, len: nat)
    requires n <= |sizes| && s < |sizes|
    ensures CountBelow(sizes[s := v], n, len)
            == CountBelow(sizes, n, len)
               + (if s < n then (if v == len then 1 else 0) - (if sizes[s] == len then 1 else 0) else 0)
  {
    if n > 0 {
      CountUpdate(sizes, n - 1, s, v, len);
    }
  }

  lemma {:induction false} CountNone(sizes: seq<nat>, n: nat, len: nat)
    requires n <= |sizes| && forall i :: 0 <= i < n ==> sizes[i] != len
    ensures CountBelow(sizes, n, len) == 0
  {
    if n > 0 {
      CountNone(sizes, n - 1, len);
    }
  }

  // Lengths below `i` are all handed out, `done` symbols have length `i`; items from `j` on are served.
  ghost predicate Serving(sizes: seq<nat>, s: seq<SymFreq>, nums: seq<int>, i: nat, done: int, j: int) {
    && 1 <= i <= 16 && |nums| == MAX_DEPTH + 1 && 0 <= j <= |s|
    && (forall k :: 0 <= k < |s| ==> s[k].sym < |sizes|)
    && (forall k :: 0 <= k < |s| ==> (k >= j <==> sizes[s[k].sym] > 0))
    && (forall k :: 0 <= k < |sizes| && sizes[k] > 0 ==> exists m :: 0 <= m < |s| && s[m].sym == k)
    && (forall k :: 0 <= k < |sizes| ==> sizes[k] <= i && sizes[k] <= 15)
    && (forall l :: 1 <= l <= 15 ==> Count(sizes, l) == if l < i then nums[l] else if l == i then done else 0)
    && j == |s| - Total(nums, i - 1) - done
  }

  lemma ServeOne(sizes: seq<nat>, s: seq<SymFreq>, nums: seq<int>, i: nat, done: int, j: int)
    requires Serving(sizes, s, nums, i, done, j) && DistinctSyms(s) && j > 0 && i <= 15
    ensures Serving(sizes[s[j - 1].sym := i], s, nums, i, done + 1, j - 1)
  {
    var k := s[j - 1].sym;
    assert sizes[s[j - 1].sym] == 0;
    forall l | 1 <= l <= 15
      ensures Count(sizes[k := i], l) == if l < i then nums[l] else if l == i then done + 1 else 0
    {
      CountUpdate(sizes, |sizes|, k, i, l);
      assert Count(sizes, l) == if l < i then nums[l] else if l == i then done else 0;
    }
  }

  method AssignSizes(s: seq<SymFreq>, nums: seq<int>, limit: nat, sizes: array<nat>)
    requires DistinctSyms(s) && forall k :: 0 <= k < |s| ==> s[k].sym < sizes.Length
    requires |nums| == MAX_DEPTH + 1 && 1 <= limit <= 15 && NonNegative(nums, limit) && Total(nums, limit) == |s|
    modifies sizes
    ensures forall k :: 0 <= k < sizes.Length ==>
                          sizes[k] <= limit && (sizes[k] > 0 <==> exists m :: 0 <= m < |s| && s[m].sym == k)
    ensures forall l :: 1 <= l <= 15 ==> Count(sizes[..], l) == if l <= limit then nums[l] else 0
  {
    hide Serving;
    forall k | 0 <= k < sizes.Length {
      sizes[k] := 0;
    }
    var j := |s|;
    ServingStarts(sizes[..], s, nums);
    for i := 1 to limit + 1
      invariant Serving(sizes[..], s, nums, i, 0, j)
    {
      var l := nums[i];
      while l > 0
        invariant 0 <= l <= nums[i] && Serving(sizes[..], s, nums, i, nums[i] - l, j)
      {
        HasItem(sizes[..], s, nums, limit, i, nums[i] - l, j);
        j := j - 1;
        ghost var was := sizes[..];
        ServeOne(was, s, nums, i, nums[i] - l, j + 1);
        sizes[s[j].sym] := i;
        assert sizes[..] == was[s[j].sym := i];
        l := l - 1;
      }
      NextLength(sizes[..], s, nums, i, j);
    }
    ServingEnds(sizes[..], s, nums, limit, j);
  }

  lemma ServingStarts(sizes: seq<nat>, s: seq<SymFreq>, nums: seq<int>)
    requires |nums| == MAX_DEPTH + 1 && (forall k :: 0 <= k < |sizes| ==> sizes[k] == 0)
    requires forall k :: 0 <= k < |s| ==> s[k].sym < |sizes|
    ensures Serving(sizes, s, nums, 1, 0, |s|)
  {
    forall l | 1 <= l <= 15 ensures Count(sizes, l) == 0 {
      CountNone(sizes, |sizes|, l);
    }
  }

  lemma {:induction false} TotalMonotone(nums: seq<int>, a: nat, b: nat)
    requires a <= b && NonNegative(nums, b)
    ensures Total(nums, a) <= Total(nums, b)
  {
    if a < b {
      TotalMonotone(nums, a, b - 1);
    }
  }

  lemma HasItem(sizes: seq<nat>, s: seq<SymFreq>, nums: seq<int>, limit: nat, i: nat, done: int, j: int)
    requires Serving(sizes, s, nums, i, done, j) && 1 <= i <= limit <= 15 && 0 <= done < nums[i]
    requires NonNegative(nums, limit) && Total(nums, limit) == |s|
    ensures 0 < j <= |s| && s[j - 1].sym < |sizes|
  {
    TotalMonotone(nums, i, limit);
  }

  lemma NextLength(sizes: seq<nat>, s: seq<SymFreq>, nums: seq<int>, i: nat, j: int)
    requires 1 <= i <= 15 && |nums| == MAX_DEPTH + 1 && Serving(sizes, s, nums, i, nums[i], j)
    ensures Serving(sizes, s, nums, i + 1, 0, j)
  {
    forall l | 1 <= l <= 15 ensures Count(sizes, l) == if l < i + 1 then nums[l] else 0 {
    }
  }

  lemma ServingEnds(sizes: seq<nat>, s: seq<SymFreq>, nums: seq<int>, limit: nat, j: int)
    requires 1 <= limit <= 15 && NonNegative(nums, limit) && Serving(sizes, s, nums, limit + 1, 0, j)
    requires Total(nums, limit) == |s|
    ensures forall l :: 1 <= l <= 15 ==> Count(sizes, l) == if l <= limit then nums[l] else 0
    ensures forall k :: 0 <= k < |sizes| ==>
                          sizes[k] <= limit && (sizes[k] > 0 <==> exists m :: 0 <= m < |s| && s[m].sym == k)
  {
    assert limit < 15 ==> Count(sizes, limit + 1) == 0;
    forall k | 0 <= k < |sizes| ensures sizes[k] <= limit {
      if sizes[k] == limit + 1 {
        LengthTaken(sizes, k, |sizes|);
      }
    }
  }

  lemma {:induction false} LengthTaken(sizes: seq<nat>, k: nat, n: nat)
    requires k < n <= |sizes|
    ensures CountBelow(sizes, n, sizes[k]) >= 1
  {
    if k < n - 1 {
      LengthTaken(sizes, k, n - 1);
    }
  }

  // ---------------------------------------------------------------- lengths the decoder accepts

  lemma {:induction false} FirstCodeWeighted(sizes: seq<nat>, nums: seq<int>, len: nat, limit: nat)
    requires len <= limit <= 15 && limit < |nums|
    requires forall l :: 1 <= l <= limit ==> Count(sizes, l) == nums[l]
    ensures FirstCode(sizes, len + 1) == 2 * Weighted(nums, len, len)
    ensures UsedUpTo(sizes, len) == Total(nums, len)
  {
    if len > 0 {
      FirstCodeWeighted(sizes, nums, len - 1, limit);
      WeightedScale(nums, len - 1, len - 1);
      assert Pow2(0) == 1;
    }
  }

  lemma {:induction false} BeyondLimit(sizes: seq<nat>, limit: nat, len: nat)
    requires limit <= len <= 15 && forall l :: limit < l <= 15 ==> Count(sizes, l) == 0
    ensures UsedUpTo(sizes, len) == UsedUpTo(sizes, limit)
    ensures FirstCode(sizes, limit + 1) == Pow2(limit + 1) ==> FirstCode(sizes, len + 1) == Pow2(len + 1)
  {
    if limit < len {
      BeyondLimit(sizes, limit, len - 1);
    }
  }

  // Lengths with limited counts whose Kraft sum is one (or at most one symbol) pass the decoder's gate.
  lemma LimitedAccepted(sizes: seq<nat>, nums: seq<int>, limit: nat, n: nat)
    requires 1 <= limit <= 15 && limit < |nums| && Total(nums, limit) == n
    requires n > 1 ==> Weighted(nums, limit, limit) == Pow2(limit)
    requires forall k :: 0 <= k < |sizes| ==> sizes[k] <= limit
    requires forall l :: 1 <= l <= 15 ==> Count(sizes, l) == if l <= limit then nums[l] else 0
    ensures Accepted(sizes) && UsedUpTo(sizes, 15) == n && (n > 1 ==> Complete(sizes))
  {
    hide FirstCode, UsedUpTo, Weighted, Total;
    FirstCodeWeighted(sizes, nums, limit, limit);
    BeyondLimit(sizes, limit, 15);
    Pow2Values();
    GateAccepts(sizes);
  }

  // With at most one symbol the limiter has nothing to do.
  lemma LoneTally(lens: seq<nat>, nums: seq<int>, limit: nat)
    requires Tallied(lens, nums) && |lens| <= 1 && 1 <= limit < MAX_DEPTH
    requires |lens| == 1 ==> lens[0] == 1
    ensures NonNegative(nums, limit) && Total(nums, limit) == |lens|
  {
    LoneTotal(nums, limit, MAX_DEPTH);
  }

  lemma {:induction false} LoneTotal(nums: seq<int>, a: nat, b: nat)
    requires a <= b < |nums| && forall l :: a < l <= b ==> nums[l] == 0
    ensures Total(nums, a) == Total(nums, b)
  {
    if a < b {
      LoneTotal(nums, a, b - 1);
    }
  }

  // From sorted weights to limited numbers of codes per length.
  method LimitedCounts(keys: array<nat>, limit: nat) returns (nums: array<int>)
    requires keys.Length <= 65535 && HuffmanDepth.Ordinary(keys[..])
    requires 1 <= limit <= 15 && keys.Length <= Pow2(limit)
    modifies keys
    ensures fresh(nums) && nums.Length == MAX_DEPTH + 1 && NonNegative(nums[..], limit)
    ensures Total(nums[..], limit) == keys.Length
    ensures keys.Length > 1 ==> Weighted(nums[..], limit, limit) == Pow2(limit)
  {
    hide KraftSum, Total, Weighted, HuffmanDepth.Ordinary;
    MinimumRedundancy(keys);
    nums := TallyLengths(keys);
    if keys.Length > 1 {
      KraftToFull(keys[..]);
    } else {
      LoneTally(keys[..], nums[..], limit);
    }
    EnforceMaxCodeSize(nums, keys.Length, limit);
  }

  lemma KraftToFull(lens: seq<nat>)
    requires KraftSum(lens, |lens|) == Pow2(|lens|)
    requires forall i :: 0 <= i < |lens| ==> lens[i] <= 22 && lens[i] < |lens|
    ensures KraftSum(lens, MAX_DEPTH) == Pow2(MAX_DEPTH)
  {
    if |lens| <= MAX_DEPTH {
      KraftOneUp(lens, |lens|, MAX_DEPTH);
    } else {
      KraftOneUp(lens, MAX_DEPTH, |lens|);
    }
  }

  // ---------------------------------------------------------------- canonical codes

  // The next free code of each length up to `limit` once the first `n` symbols have theirs.
  ghost predicate NextCodes(sizes: seq<nat>, n: nat, limit: nat, next: seq<nat>) {
    n <= |sizes| && limit < |next| &&
    forall l :: 1 <= l <= limit ==> next[l] == FirstCode(sizes, l) + CountBelow(sizes, n, l)
  }

  method FirstCodes(ghost sizes: seq<nat>, nums: seq<int>, limit: nat) returns (next: array<nat>)
    requires 1 <= limit <= 15 < |nums| && forall l :: 1 <= l <= limit ==> Count(sizes, l) == nums[l]
    ensures fresh(next) && NextCodes(sizes, 0, limit, next[..])
  {
    hide CountBelow, FirstCode;
    next := new nat[MAX_DEPTH + 1](_ => 0);
    var j := 0;
    CountStart(sizes);
    for i := 2 to limit + 1
      invariant fresh(next) && next.Length == MAX_DEPTH + 1
      invariant j == FirstCode(sizes, i - 1)
      invariant forall l :: 1 <= l < i ==> next[l] == FirstCode(sizes, l)
    {
      CountStep(sizes, i - 1);
      j := 2 * (j + nums[i - 1]);
      next[i] := j;
    }
    NobodyCounted(sizes);
  }

  lemma NobodyCounted(sizes: seq<nat>)
    ensures forall l :: CountBelow(sizes, 0, l) == 0
  {
  }

  method AssignCodes(sizes: seq<nat>, nums: seq<int>, limit: nat) returns (codes: array<nat>)
    requires 1 <= limit <= 15 < |nums| && forall l :: 1 <= l <= limit ==> Count(sizes, l) == nums[l]
    requires forall k :: 0 <= k < |sizes| ==> sizes[k] <= limit
    ensures fresh(codes) && codes.Length == |sizes|
    ensures forall s :: 0 <= s < |sizes| && Used(sizes, s) ==> codes[s] == Wire(sizes, s)
  {
    hide FirstCode, Wire;
    codes := new nat[|sizes|](_ => 0);
    var next := FirstCodes(sizes, nums, limit);
    for i := 0 to |sizes|
      invariant fresh(codes) && fresh(next) && codes != next && NextCodes(sizes, i, limit, next[..])
      invariant forall s :: 0 <= s < i && Used(sizes, s) ==> codes[s] == Wire(sizes, s)
    {
      var size := sizes[i];
      if size != 0 {
        var code := next[size];
        next[size] := code + 1;
        WireIs(sizes, i);
        codes[i] := ReverseBits(code, size);
      }
    }
  }

  lemma WireIs(sizes: seq<nat>, s: nat)
    requires Used(sizes, s)
    ensures Wire(sizes, s) == Reverse(FirstCode(sizes, sizes[s]) + CountBelow(sizes, s, sizes[s]), sizes[s])
  {
  }

  // The whole table: exactly the counted symbols get a length, the decoder's gate accepts the lengths,
  // and every code is the canonical one, reversed for the wire.
  method OptimizeTable(counts: seq<nat>, limit: nat) returns (sizes: array<nat>, codes: array<nat>)
    requires HuffmanDepth.Sum(counts) <= 65535 && 1 <= limit <= 15 && |counts| <= Pow2(limit)
    ensures fresh(sizes) && fresh(codes) && sizes.Length == codes.Length == |counts|
    ensures forall s :: 0 <= s < |counts| ==> sizes[s] <= limit && (sizes[s] > 0 <==> counts[s] > 0)
    ensures Accepted(sizes[..]) && (UsedUpTo(sizes[..], 15) > 1 ==> Complete(sizes[..]))
    ensures forall s :: 0 <= s < |counts| && counts[s] > 0 ==> codes[s] == Wire(sizes[..], s)
  {
    hide Accepted, Complete, UsedUpTo, Wire, Total, Weighted, HuffmanDepth.Ordinary, Count, HuffmanDepth.Sum;
    PowerRoom(limit);
    var cur, n := SortedUses(counts);
    var keys := new nat[n](i requires 0 <= i < n && n <= cur.Length reads cur => cur[i].key);
    KeysAt(cur[..n]);
    assert keys[..] == Keys(cur[..n]);
    var nums := LimitedCounts(keys, limit);
    sizes := new nat[|counts|];
    AssignSizes(cur[..n], nums[..], limit, sizes);
    LimitedAccepted(sizes[..], nums[..], limit, n);
    UsesAre(counts, cur[..n]);
    codes := AssignCodes(sizes[..], nums[..], limit);
  }

  lemma PowerRoom(limit: nat)
    requires limit <= 15
    ensures Pow2(limit) <= 32768
  {
    Pow2Monotone(limit, 15);
    Pow2Values();
  }

  lemma UsesAre(counts: seq<nat>, s: seq<SymFreq>)
    requires Uses(counts, |counts|, s)
    ensures forall k :: 0 <= k < |counts| ==> (counts[k] > 0 <==> exists m :: 0 <= m < |s| && s[m].sym == k)
  {
    forall k | 0 <= k < |counts| ensures counts[k] > 0 <==> exists m :: 0 <= m < |s| && s[m].sym == k {
      if counts[k] > 0 {
        var m :| 0 <= m < |s| && s[m] == SymFreq(counts[k], k);
        assert s[m].sym == k;
      }
    }
  }

  method SortedUses(counts: seq<nat>) returns (cur: array<SymFreq>, n: nat)
    requires HuffmanDepth.Sum(counts) <= 65535
    ensures fresh(cur) && n <= cur.Length && n <= |counts| && Uses(counts, |counts|, cur[..n])
    ensures HuffmanDepth.Ordinary(Keys(cur[..n]))
  {
    var syms0 := new SymFreq[|counts|](_ => SymFreq(0, 0));
    var syms1 := new SymFreq[|counts|](_ => SymFreq(0, 0));
    n := CollectUsed(counts, syms0);
    ghost var s := syms0[..n];
    cur := RadixSortSyms(n, syms0, syms1);
    UsesPermuted(counts, |counts|, s, cur[..n]);
    SumKeysPermuted(s, cur[..n]);
    SortedUsesOrdinary(counts, cur[..n]);
  }

  // An accepted vector passes the decoder's own test.
  lemma GateOpen(sizes: seq<nat>)
    requires Accepted(sizes)
    ensures FirstCode(sizes, 16) == 65536 || UsedUpTo(sizes, 15) <= 1
  {
    if !Complete(sizes) && UsedUpTo(sizes, 15) > 1 {
      TwoUsed(sizes, 15);
    }
  }

  lemma {:induction false} TwoUsed(sizes: seq<nat>, hi: nat)
    requires AtMostOneUsed(sizes)
    ensures UsedUpTo(sizes, hi) <= 1
    ensures UsedUpTo(sizes, hi) == 1 ==> exists s: nat :: Used(sizes, s) && sizes[s] <= hi
  {
    if hi > 0 {
      TwoUsed(sizes, hi - 1);
      LoneCount(sizes, |sizes|, hi);
      if UsedUpTo(sizes, hi - 1) == 1 {
        var t: nat :| Used(sizes, t) && sizes[t] <= hi - 1;
        assert forall s :: Used(sizes, s) ==> s == t;
      }
    }
  }

  lemma {:induction false} LoneCount(sizes: seq<nat>, n: nat, len: nat)
    requires AtMostOneUsed(sizes) && len > 0 && n <= |sizes|
    ensures CountBelow(sizes, n, len) <= 1
    ensures CountBelow(sizes, n, len) == 1 ==> exists s: nat :: s < n && Used(sizes, s) && sizes[s] == len
  {
    if n > 0 {
      LoneCount(sizes, n - 1, len);
      if sizes[n - 1] == len {
        assert Used(sizes, n - 1);
      }
    }
  }
}
