// The two-pass byte radix sort of symbol counts in libjade/miniz.c.
module RadixSort {

  datatype SymFreq = SymFreq(key: nat, sym: nat)

  function Digit(key: nat, pass: nat): (d: nat)
    ensures d < 256
  {
    if pass == 0 then key % 256 else (key / 256) % 256
  }

  // The items with a given digit, in order.
  function Filter(s: seq<SymFreq>, pass: nat, b: nat): (f: seq<SymFreq>) {
    if s == [] then []
    else
      var last := s[|s| - 1];
      Filter(s[..|s| - 1], pass, b) + (if Digit(last.key, pass) == b then [last] else [])
  }

  // The buckets below `top`, one after the other.
  function Gather(s: seq<SymFreq>, pass: nat, top: nat): seq<SymFreq> {
    if top == 0 then [] else Gather(s, pass, top - 1) + Filter(s, pass, top - 1)
  }

  lemma FilterNext(s: seq<SymFreq>, i: nat, pass: nat, b: nat)
    requires i < |s|
    ensures Filter(s[..i + 1], pass, b) == Filter(s[..i], pass, b) + (if Digit(s[i].key, pass) == b then [s[i]] else [])
  {
    assert s[..i + 1][..i] == s[..i];
  }

  lemma {:induction false} FilterPrefix(s: seq<SymFreq>, i: nat, j: nat, pass: nat, b: nat)
    requires i <= j <= |s|
    ensures Filter(s[..i], pass, b) <= Filter(s[..j], pass, b)
  {
    if i < j {
      FilterPrefix(s, i, j - 1, pass, b);
      FilterNext(s, j - 1, pass, b);
    }
  }

  lemma {:induction false} GatherMonotone(s: seq<SymFreq>, pass: nat, a: nat, b: nat)
    requires a <= b
    ensures |Gather(s, pass, a)| <= |Gather(s, pass, b)|
  {
    if a < b {
      GatherMonotone(s, pass, a, b - 1);
    }
  }

  // Appending one item puts it at the end of its own bucket.
  lemma {:induction false} GatherAppend(s: seq<SymFreq>, x: SymFreq, pass: nat, top: nat)
    ensures multiset(Gather(s + [x], pass, top))
            == multiset(Gather(s, pass, top)) + (if Digit(x.key, pass) < top then multiset{x} else multiset{})
    ensures |Gather(s + [x], pass, top)| == |Gather(s, pass, top)| + (if Digit(x.key, pass) < top then 1 else 0)
  {
    hide Digit, Filter;
    if top > 0 {
      GatherAppend(s, x, pass, top - 1);
      FilterAppend(s, x, pass, top - 1);
      var g, f := Gather(s, pass, top - 1), Filter(s, pass, top - 1);
      var g', f' := Gather(s + [x], pass, top - 1), Filter(s + [x], pass, top - 1);
      assert Gather(s, pass, top) == g + f && Gather(s + [x], pass, top) == g' + f';
      if Digit(x.key, pass) == top - 1 {
        assert multiset(f') == multiset(f) + multiset{x};
      }
    }
  }

  lemma FilterAppend(s: seq<SymFreq>, x: SymFreq, pass: nat, b: nat)
    ensures Filter(s + [x], pass, b) == Filter(s, pass, b) + (if Digit(x.key, pass) == b then [x] else [])
  {
    assert (s + [x])[..|s|] == s;
  }

  lemma {:induction false} GatherPermutes(s: seq<SymFreq>, pass: nat)
    ensures multiset(Gather(s, pass, 256)) == multiset(s) && |Gather(s, pass, 256)| == |s|
  {
    if s == [] {
      GatherEmpty(pass, 256);
    } else {
      var n := |s| - 1;
      assert s == s[..n] + [s[n]];
      GatherPermutes(s[..n], pass);
      GatherAppend(s[..n], s[n], pass, 256);
    }
  }

  lemma {:induction false} GatherEmpty(pass: nat, top: nat)
    ensures Gather([], pass, top) == []
  {
    if top > 0 {
      GatherEmpty(pass, top - 1);
    }
  }

  lemma {:induction false} FilterConcat(s: seq<SymFreq>, t: seq<SymFreq>, pass: nat, b: nat)
    ensures Filter(s + t, pass, b) == Filter(s, pass, b) + Filter(t, pass, b)
  {
    if t == [] {
      assert s + t == s;
    } else {
      var n := |t| - 1;
      assert (s + t)[..|s + t| - 1] == s + t[..n];
      FilterConcat(s, t[..n], pass, b);
    }
  }

  // Sorting by one digit does not change how many items carry a value of the other.
  lemma {:induction false} GatherFilterAppend(s: seq<SymFreq>, x: SymFreq, pass: nat, top: nat, other: nat, b: nat)
    ensures |Filter(Gather(s + [x], pass, top), other, b)|
            == |Filter(Gather(s, pass, top), other, b)|
               + (if Digit(x.key, pass) < top && Digit(x.key, other) == b then 1 else 0)
  {
    hide Filter;
    if top > 0 {
      GatherFilterAppend(s, x, pass, top - 1, other, b);
      FilterConcat(Gather(s + [x], pass, top - 1), Filter(s + [x], pass, top - 1), other, b);
      FilterConcat(Gather(s, pass, top - 1), Filter(s, pass, top - 1), other, b);
      FilterAppend(s, x, pass, top - 1);
      FilterAppend(Filter(s, pass, top - 1), x, other, b);
      if Digit(x.key, pass) != top - 1 {
        assert Filter(s + [x], pass, top - 1) == Filter(s, pass, top - 1);
      }
      assert Gather(s + [x], pass, top) == Gather(s + [x], pass, top - 1) + Filter(s + [x], pass, top - 1);
      assert Gather(s, pass, top) == Gather(s, pass, top - 1) + Filter(s, pass, top - 1);
    }
  }

  lemma {:induction false} HistogramKept(s: seq<SymFreq>, pass: nat, other: nat, b: nat)
    ensures |Filter(Gather(s, pass, 256), other, b)| == |Filter(s, other, b)|
  {
    if s == [] {
      GatherEmpty(pass, 256);
    } else {
      var n := |s| - 1;
      assert s == s[..n] + [s[n]];
      HistogramKept(s[..n], pass, other, b);
      GatherFilterAppend(s[..n], s[n], pass, 256, other, b);
    }
  }

  // ---------------------------------------------------------------- order

  ghost predicate SortedLow(s: seq<SymFreq>) {
    forall i, j :: 0 <= i <= j < |s| ==> Digit(s[i].key, 0) <= Digit(s[j].key, 0)
  }

  ghost predicate SortedByKey(s: seq<SymFreq>) {
    forall i, j :: 0 <= i <= j < |s| ==> s[i].key <= s[j].key
  }

  ghost predicate Keys16(s: seq<SymFreq>) {
    forall i :: 0 <= i < |s| ==> s[i].key < 65536
  }

  lemma {:induction false} FilterMembers(s: seq<SymFreq>, pass: nat, b: nat)
    ensures forall k :: 0 <= k < |Filter(s, pass, b)| ==>
                          Filter(s, pass, b)[k] in s && Digit(Filter(s, pass, b)[k].key, pass) == b
  {
    if s != [] {
      FilterMembers(s[..|s| - 1], pass, b);
    }
  }

  lemma {:induction false} FilterSorted(s: seq<SymFreq>, pass: nat, b: nat)
    requires SortedLow(s)
    ensures SortedLow(Filter(s, pass, b))
  {
    if s != [] {
      var n := |s| - 1;
      FilterSorted(s[..n], pass, b);
      FilterMembers(s[..n], pass, b);
    }
  }

  lemma JoinLow(a: seq<SymFreq>, b: seq<SymFreq>, top: nat)
    requires SortedLow(a) && forall k :: 0 <= k < |a| ==> Digit(a[k].key, 0) < top
    requires forall k :: 0 <= k < |b| ==> Digit(b[k].key, 0) == top
    ensures SortedLow(a + b)
  {
    hide Digit;
  }

  lemma {:induction false} GatherLow(s: seq<SymFreq>, top: nat)
    ensures SortedLow(Gather(s, 0, top))
    ensures forall k :: 0 <= k < |Gather(s, 0, top)| ==> Digit(Gather(s, 0, top)[k].key, 0) < top
  {
    hide Digit, Filter;
    if top > 0 {
      GatherLow(s, top - 1);
      FilterMembers(s, 0, top - 1);
      JoinLow(Gather(s, 0, top - 1), Filter(s, 0, top - 1), top - 1);
    }
  }

  // Keys with a smaller high digit in front of keys with a larger one, these in order of their low digits.
  lemma JoinSorted(a: seq<SymFreq>, b: seq<SymFreq>, top: nat)
    requires SortedByKey(a) && SortedLow(b)
    requires forall k :: 0 <= k < |a| ==> a[k].key < 65536 && Digit(a[k].key, 1) < top
    requires forall k :: 0 <= k < |b| ==> b[k].key < 65536 && Digit(b[k].key, 1) == top
    ensures SortedByKey(a + b)
  {
  }

  lemma {:induction false} GatherHigh(s: seq<SymFreq>, top: nat)
    requires SortedLow(s) && Keys16(s)
    ensures SortedByKey(Gather(s, 1, top))
    ensures forall k :: 0 <= k < |Gather(s, 1, top)| ==>
                          Gather(s, 1, top)[k].key < 65536 && Digit(Gather(s, 1, top)[k].key, 1) < top
  {
    hide Digit, Filter, SortedLow;
    if top > 0 {
      GatherHigh(s, top - 1);
      FilterMembers(s, 1, top - 1);
      FilterSorted(s, 1, top - 1);
      JoinSorted(Gather(s, 1, top - 1), Filter(s, 1, top - 1), top - 1);
    }
  }

  // ---------------------------------------------------------------- the passes in place

  method Histogram(syms: array<SymFreq>, n: nat, pass: nat) returns (hist: array<nat>)
    requires n <= syms.Length
    ensures fresh(hist) && hist.Length == 256
    ensures forall b :: 0 <= b < 256 ==> hist[b] == |Filter(syms[..n], pass, b)|
  {
    hist := new nat[256](_ => 0);
    for i := 0 to n
      invariant forall b :: 0 <= b < 256 ==> hist[b] == |Filter(syms[..n][..i], pass, b)|
    {
      forall b | 0 <= b < 256 ensures |Filter(syms[..n][..i + 1], pass, b)|
                                      == |Filter(syms[..n][..i], pass, b)|
                                          + (if Digit(syms[i].key, pass) == b then 1 else 0)
      {
        FilterNext(syms[..n], i, pass, b);
      }
      var d := Digit(syms[i].key, pass);
      hist[d] := hist[d] + 1;
    }
    assert syms[..n][..n] == syms[..n];
  }

  lemma GatherSizes(s: seq<SymFreq>, pass: nat, top: nat)
    ensures Gather(s, pass, 0) == [] && |Gather(s, pass, top + 1)| == |Gather(s, pass, top)| + |Filter(s, pass, top)|
  {
  }

  method Offsets(ghost s: seq<SymFreq>, ghost pass: nat, hist: array<nat>) returns (offsets: array<nat>)
    requires hist.Length == 256 && forall b :: 0 <= b < 256 ==> hist[b] == |Filter(s, pass, b)|
    ensures fresh(offsets) && offsets.Length == 256
    ensures forall b :: 0 <= b < 256 ==> offsets[b] == |Gather(s, pass, b)|
  {
    hide Filter, Gather;
    offsets := new nat[256](_ => 0);
    GatherSizes(s, pass, 0);
    var curOfs := 0;
    for i := 0 to 256
      invariant fresh(offsets) && curOfs == |Gather(s, pass, i)|
      invariant forall b :: 0 <= b < i ==> offsets[b] == |Gather(s, pass, b)|
    {
      offsets[i] := curOfs;
      GatherSizes(s, pass, i);
      curOfs := curOfs + hist[i];
    }
  }

  // Every bucket is filled with the items of the first `i` that belong there.
  ghost predicate Filled(s: seq<SymFreq>, i: nat, pass: nat, dst: seq<SymFreq>)
    requires i <= |s|
  {
    forall b :: 0 <= b < 256 ==> Bucket(|Gather(s, pass, b)|, Filter(s[..i], pass, b), dst)
  }

  ghost predicate Bucket(start: nat, part: seq<SymFreq>, dst: seq<SymFreq>) {
    start + |part| <= |dst| && dst[start..start + |part|] == part
  }

  lemma BucketRange(s: seq<SymFreq>, i: nat, pass: nat, b: nat)
    requires i <= |s| && b < 256
    ensures |Gather(s, pass, b)| + |Filter(s[..i], pass, b)| <= |Gather(s, pass, b + 1)| <= |s|
    ensures i < |s| && Digit(s[i].key, pass) == b ==> |Gather(s, pass, b)| + |Filter(s[..i], pass, b)| < |s|
    ensures i < |s| && Digit(s[i].key, pass) == b ==>
              |Gather(s, pass, b)| + |Filter(s[..i], pass, b)| < |Gather(s, pass, b + 1)|
  {
    FilterPrefix(s, i, |s|, pass, b);
    assert s[..|s|] == s;
    GatherMonotone(s, pass, b + 1, 256);
    GatherPermutes(s, pass);
    if i < |s| {
      FilterNext(s, i, pass, b);
      FilterPrefix(s, i + 1, |s|, pass, b);
    }
  }

  // Placing item `i` extends its own bucket and touches no other.
  lemma PlaceKeeps(s: seq<SymFreq>, i: nat, pass: nat, dst: seq<SymFreq>, at: nat, b: nat)
    requires i < |s| == |dst| && b < 256 && at < |dst|
    requires Bucket(|Gather(s, pass, b)|, Filter(s[..i], pass, b), dst)
    requires var d := Digit(s[i].key, pass); at == |Gather(s, pass, d)| + |Filter(s[..i], pass, d)|
    ensures Bucket(|Gather(s, pass, b)|, Filter(s[..i + 1], pass, b), dst[at := s[i]])
  {
    hide Gather, Filter, Digit;
    var d := Digit(s[i].key, pass);
    var start, part := |Gather(s, pass, b)|, Filter(s[..i], pass, b);
    FilterNext(s, i, pass, b);
    BucketRange(s, i, pass, b);
    BucketRange(s, i, pass, d);
    if d < b {
      GatherMonotone(s, pass, d + 1, b);
      BucketOutside(start, part, dst, at, s[i]);
    } else if b < d {
      GatherMonotone(s, pass, b + 1, d);
      BucketOutside(start, part, dst, at, s[i]);
    } else {
      BucketGrows(start, part, dst, s[i]);
    }
  }

  lemma BucketOutside(start: nat, part: seq<SymFreq>, dst: seq<SymFreq>, at: nat, x: SymFreq)
    requires Bucket(start, part, dst) && at < |dst| && !(start <= at < start + |part|)
    ensures Bucket(start, part, dst[at := x])
  {
  }

  lemma BucketGrows(start: nat, part: seq<SymFreq>, dst: seq<SymFreq>, x: SymFreq)
    requires Bucket(start, part, dst) && start + |part| < |dst|
    ensures Bucket(start, part + [x], dst[start + |part| := x])
  {
  }

  lemma NothingFilled(s: seq<SymFreq>, pass: nat, dst: seq<SymFreq>)
    requires |dst| == |s|
    ensures Filled(s, 0, pass, dst)
  {
    forall b | 0 <= b < 256 ensures Bucket(|Gather(s, pass, b)|, Filter(s[..0], pass, b), dst) {
      BucketRange(s, 0, pass, b);
    }
  }

  lemma LastBucket(s: seq<SymFreq>, pass: nat, dst: seq<SymFreq>, b: nat)
    requires b < 256 && Filled(s, |s|, pass, dst)
    ensures Bucket(|Gather(s, pass, b)|, Filter(s, pass, b), dst)
  {
    assert s[..|s|] == s;
  }

  lemma {:induction false} AllFilled(s: seq<SymFreq>, pass: nat, dst: seq<SymFreq>, top: nat)
    requires |dst| == |s| && top <= 256 && Filled(s, |s|, pass, dst)
    ensures |Gather(s, pass, top)| <= |dst| && dst[..|Gather(s, pass, top)|] == Gather(s, pass, top)
  {
    hide Filter, Filled;
    if top > 0 {
      AllFilled(s, pass, dst, top - 1);
      LastBucket(s, pass, dst, top - 1);
      var g, f := Gather(s, pass, top - 1), Filter(s, pass, top - 1);
      assert Gather(s, pass, top) == g + f;
      assert dst[..|g| + |f|] == dst[..|g|] + dst[|g|..|g| + |f|];
    }
  }

  method Scatter(src: array<SymFreq>, dst: array<SymFreq>, n: nat, pass: nat, hist: array<nat>)
    requires src != dst && n <= src.Length && n <= dst.Length
    requires hist.Length == 256 && forall b :: 0 <= b < 256 ==> hist[b] == |Filter(src[..n], pass, b)|
    modifies dst
    ensures dst[..n] == Gather(old(src[..n]), pass, 256)
  {
    hide Filled, Gather, Filter, Digit;
    ghost var s := src[..n];
    var offsets := Offsets(s, pass, hist);
    NothingFilled(s, pass, dst[..n]);
    FilterNone(s, pass);
    for i := 0 to n
      invariant fresh(offsets)
      invariant forall b :: 0 <= b < 256 ==> offsets[b] == |Gather(s, pass, b)| + |Filter(s[..i], pass, b)|
      invariant Filled(s, i, pass, dst[..n])
    {
      PlaceOne(s, src[i], dst, n, i, pass, offsets);
    }
    GatherPermutes(s, pass);
    AllFilled(s, pass, dst[..n], 256);
  }

  lemma FilterNone(s: seq<SymFreq>, pass: nat)
    ensures forall b :: Filter(s[..0], pass, b) == []
  {
  }

  method PlaceOne(ghost s: seq<SymFreq>, x: SymFreq, dst: array<SymFreq>, n: nat, ghost i: nat, pass: nat,
                  offsets: array<nat>)
    requires i < n == |s| <= dst.Length && offsets.Length == 256 && s[i] == x
    requires forall b :: 0 <= b < 256 ==> offsets[b] == |Gather(s, pass, b)| + |Filter(s[..i], pass, b)|
    requires Filled(s, i, pass, dst[..n])
    modifies dst, offsets
    ensures forall b :: 0 <= b < 256 ==> offsets[b] == |Gather(s, pass, b)| + |Filter(s[..i + 1], pass, b)|
    ensures Filled(s, i + 1, pass, dst[..n])
  {
    hide Filled, Gather, Filter, Digit;
    var d := Digit(x.key, pass);
    BucketRange(s, i, pass, d);
    ghost var was := dst[..n];
    var at := offsets[d];
    dst[at] := x;
    assert dst[..n] == was[at := x];
    offsets[d] := at + 1;
    FilledNext(s, i, pass, was, at);
  }

  lemma FilledNext(s: seq<SymFreq>, i: nat, pass: nat, dst: seq<SymFreq>, at: nat)
    requires i < |s| == |dst| && at < |dst| && Filled(s, i, pass, dst)
    requires var d := Digit(s[i].key, pass); at == |Gather(s, pass, d)| + |Filter(s[..i], pass, d)|
    ensures Filled(s, i + 1, pass, dst[at := s[i]])
    ensures forall b :: 0 <= b < 256 ==>
                          |Filter(s[..i + 1], pass, b)|
                          == |Filter(s[..i], pass, b)| + (if Digit(s[i].key, pass) == b then 1 else 0)
  {
    hide Gather, Filter, Digit;
    forall b | 0 <= b < 256
      ensures Bucket(|Gather(s, pass, b)|, Filter(s[..i + 1], pass, b), dst[at := s[i]])
      ensures |Filter(s[..i + 1], pass, b)| == |Filter(s[..i], pass, b)| + (if Digit(s[i].key, pass) == b then 1 else 0)
    {
      PlaceKeeps(s, i, pass, dst, at, b);
      FilterNext(s, i, pass, b);
    }
  }

  // The whole sort: one pass if every high byte is zero, two otherwise.
  method RadixSortSyms(n: nat, syms0: array<SymFreq>, syms1: array<SymFreq>) returns (cur: array<SymFreq>)
    requires syms0 != syms1 && n <= syms0.Length && n <= syms1.Length && Keys16(syms0[..n])
    modifies syms0, syms1
    ensures (cur == syms0 || cur == syms1)
    ensures multiset(cur[..n]) == multiset(old(syms0[..n])) && SortedByKey(cur[..n])
  {
    ghost var s := syms0[..n];
    var hist0 := Histogram(syms0, n, 0);
    var hist1 := Histogram(syms0, n, 1);
    GatherPermutes(s, 0);
    GatherLow(s, 256);
    Scatter(syms0, syms1, n, 0, hist0);
    ghost var t := syms1[..n];
    assert |t| == |s|;
    SameKeys(s, t);
    if hist1[0] == n {
      OnlyLow(s, t);
      cur := syms1;
    } else {
      forall b | 0 <= b < 256 ensures hist1[b] == |Filter(syms1[..n], 1, b)| {
        HistogramKept(s, 0, 1, b);
      }
      Scatter(syms1, syms0, n, 1, hist1);
      GatherPermutes(t, 1);
      GatherHigh(t, 256);
      cur := syms0;
    }
  }

  lemma SameKeys(s: seq<SymFreq>, t: seq<SymFreq>)
    requires multiset(s) == multiset(t) && Keys16(s)
    ensures Keys16(t)
  {
    forall i | 0 <= i < |t| ensures t[i].key < 65536 {
      assert t[i] in multiset(t);
      assert t[i] in s;
    }
  }

  lemma {:induction false} FilterFull(s: seq<SymFreq>, pass: nat, b: nat)
    ensures |Filter(s, pass, b)| <= |s|
    ensures |Filter(s, pass, b)| == |s| ==> forall i :: 0 <= i < |s| ==> Digit(s[i].key, pass) == b
  {
    if s != [] {
      FilterFull(s[..|s| - 1], pass, b);
    }
  }

  lemma OnlyLow(s: seq<SymFreq>, t: seq<SymFreq>)
    requires multiset(s) == multiset(t) && Keys16(t) && SortedLow(t) && |Filter(s, 1, 0)| == |s|
    ensures SortedByKey(t)
  {
    FilterFull(s, 1, 0);
    forall i | 0 <= i < |t| ensures Digit(t[i].key, 1) == 0 {
      assert t[i] in multiset(t);
      assert t[i] in s;
    }
  }
}
