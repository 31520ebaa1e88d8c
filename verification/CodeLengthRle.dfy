// Run-length packing of code lengths (section 3.2.7 of RFC 1951): the encoder's half in
// tdefl_start_dynamic_block() and the decoder's half in tinfl_decompress(), libjade/miniz.c.
module CodeLengthRle {

  // One packed item: a length, "repeat the last length", or a run of zeros.
  datatype Item = Length(len: nat) | Repeat(extra: nat) | ShortZeros(extra: nat) | LongZeros(extra: nat)

  function Symbol(x: Item): nat {
    match x
    case Length(len) => len
    case Repeat(_) => 16
    case ShortZeros(_) => 17
    case LongZeros(_) => 18
  }

  // The extra field fits the 2, 3 or 7 bits it is written with.
  predicate ItemOk(x: Item) {
    match x
    case Length(len) => len < 16
    case Repeat(e) => e < 4
    case ShortZeros(e) => e < 8
    case LongZeros(e) => e < 128
  }

  function Flat(items: seq<Item>): seq<nat> {
    if items == [] then []
    else
      var x := items[|items| - 1];
      Flat(items[..|items| - 1]) + (if x.Length? then [x.len] else [Symbol(x), x.extra])
  }

  function Copies(v: nat, n: nat): (s: seq<nat>)
    ensures |s| == n && forall i :: 0 <= i < n ==> s[i] == v
  {
    seq(n, _ => v)
  }

  // The lengths one item adds after those in `out`.
  function Adds(out: seq<nat>, x: Item): seq<nat> {
    match x
    case Length(len) => [len]
    case Repeat(e) => if out == [] then [] else Copies(out[|out| - 1], 3 + e)
    case ShortZeros(e) => Copies(0, 3 + e)
    case LongZeros(e) => Copies(0, 11 + e)
  }

  function Expand(items: seq<Item>): seq<nat> {
    if items == [] then []
    else
      var out := Expand(items[..|items| - 1]);
      out + Adds(out, items[|items| - 1])
  }

  // Every item is in range, and a repeat has something to repeat.
  ghost predicate Wellformed(items: seq<Item>) {
    forall k :: 0 <= k < |items| ==> ItemOk(items[k]) && (items[k].Repeat? ==> Expand(items[..k]) != [])
  }

  function Uses(items: seq<Item>, sym: nat): nat {
    if items == [] then 0
    else Uses(items[..|items| - 1], sym) + (if Symbol(items[|items| - 1]) == sym then 1 else 0)
  }

  lemma AppendItem(items: seq<Item>, x: Item)
    ensures Flat(items + [x]) == Flat(items) + (if x.Length? then [x.len] else [Symbol(x), x.extra])
    ensures Expand(items + [x]) == Expand(items) + Adds(Expand(items), x)
    ensures forall sym :: Uses(items + [x], sym) == Uses(items, sym) + (if Symbol(x) == sym then 1 else 0)
    ensures Wellformed(items) && ItemOk(x) && (x.Repeat? ==> Expand(items) != []) ==> Wellformed(items + [x])
  {
    var more := items + [x];
    assert more[..|items|] == items;
    if Wellformed(items) && ItemOk(x) && (x.Repeat? ==> Expand(items) != []) {
      forall k | 0 <= k < |more| ensures ItemOk(more[k]) && (more[k].Repeat? ==> Expand(more[..k]) != []) {
        if k < |items| {
          assert more[..k] == items[..k];
        }
      }
    }
  }

  // ---------------------------------------------------------------- the decoder, read off the format

  datatype Unpacked = Lengths(out: seq<nat>) | Refused

  // Read symbols until `total` lengths are out; overshooting or a repeat with nothing before is refused.
  function Unpack(p: seq<nat>, out: seq<nat>, total: nat): Unpacked
    decreases |p|
  {
    if |out| >= total then (if |out| == total then Lengths(out) else Refused)
    else if p == [] then Refused
    else if p[0] < 16 then Unpack(p[1..], out + [p[0]], total)
    else if |p| < 2 || p[0] > 18 || (p[0] == 16 && out == []) then Refused
    else if p[0] == 16 then Unpack(p[2..], out + Copies(out[|out| - 1], 3 + p[1]), total)
    else Unpack(p[2..], out + Copies(0, p[1] + (if p[0] == 17 then 3 else 11)), total)
  }

  // The decoder's own loop over a length array with room for one overshooting run.
  method ExpandLengths(packed: seq<nat>, total: nat, lenCodes: array<nat>) returns (ok: bool)
    requires forall k :: 0 <= k < |packed| ==> packed[k] < 128
    requires lenCodes.Length >= total + 137
    modifies lenCodes
    ensures ok == Unpack(packed, [], total).Lengths?
    ensures ok ==> lenCodes[..total] == Unpack(packed, [], total).out
  {
    hide Unpack;
    var counter, at := 0, 0;
    assert packed[0..] == packed && lenCodes[..0] == [];
    while counter < total
      invariant 0 <= at <= |packed| && 0 <= counter <= total + 137
      invariant Unpack(packed[at..], lenCodes[..counter], total) == Unpack(packed, [], total)
      decreases |packed| - at
    {
      UnpackStep(packed[at..], lenCodes[..counter], total);
      if at == |packed| {
        return false;
      }
      var sym := packed[at];
      at := at + 1;
      if sym < 16 {
        ghost var was := lenCodes[..counter];
        lenCodes[counter] := sym;
        assert lenCodes[..counter + 1] == was + [sym];
        assert packed[at - 1..][1..] == packed[at..];
        counter := counter + 1;
        continue;
      }
      if (sym == 16 && counter == 0) || at == |packed| || sym > 18 {
        return false;
      }
      var s := packed[at] + (if sym == 18 then 11 else 3);
      at := at + 1;
      assert packed[at - 2..][2..] == packed[at..];
      var v := if sym == 16 then lenCodes[counter - 1] else 0;
      FillRun(lenCodes, counter, v, s);
      counter := counter + s;
    }
    UnpackEnd(packed[at..], lenCodes[..counter], total);
    ok := counter == total;
  }

  lemma UnpackStep(p: seq<nat>, out: seq<nat>, total: nat)
    requires |out| < total
    ensures p == [] || (p[0] >= 16 && (|p| < 2 || p[0] > 18 || (p[0] == 16 && out == []))) ==>
              Unpack(p, out, total).Refused?
    ensures p != [] && p[0] < 16 ==> Unpack(p, out, total) == Unpack(p[1..], out + [p[0]], total)
    ensures |p| >= 2 && 16 <= p[0] <= 18 && (p[0] == 16 ==> out != []) ==>
              Unpack(p, out, total) ==
              var v, n := if p[0] == 16 then out[|out| - 1] else 0, p[1] + (if p[0] == 18 then 11 else 3);
              Unpack(p[2..], out + Copies(v, n), total)
  {
  }

  lemma UnpackEnd(p: seq<nat>, out: seq<nat>, total: nat)
    requires |out| >= total
    ensures Unpack(p, out, total) == if |out| == total then Lengths(out) else Refused
  {
  }

  // memset over part of the array.
  method FillRun(a: array<nat>, from: nat, v: nat, n: nat)
    requires from + n <= a.Length
    modifies a
    ensures a[..from + n] == old(a[..from]) + Copies(v, n)
  {
    forall i | from <= i < from + n {
      a[i] := v;
    }
  }

  // ---------------------------------------------------------------- items read back

  lemma FlatSplit(items: seq<Item>, k: nat)
    requires k < |items|
    ensures Flat(items[k..]) == (if items[k].Length? then [items[k].len] else [Symbol(items[k]), items[k].extra])
                                + Flat(items[k + 1..])
  {
    hide Flat;
    FlatConcat([items[k]], items[k + 1..]);
    assert [items[k]] + items[k + 1..] == items[k..];
    FlatOne(items[k]);
  }

  lemma FlatOne(x: Item)
    ensures Flat([x]) == if x.Length? then [x.len] else [Symbol(x), x.extra]
  {
    assert [x][..0] == [];
  }

  lemma {:induction false} FlatConcat(a: seq<Item>, b: seq<Item>)
    ensures Flat(a + b) == Flat(a) + Flat(b)
  {
    if b == [] {
      assert a + b == a;
    } else {
      var n := |b| - 1;
      FlatConcat(a, b[..n]);
      assert (a + b)[..|a + b| - 1] == a + b[..n];
    }
  }

  lemma ExpandNext(items: seq<Item>, k: nat)
    requires k < |items|
    ensures Expand(items[..k + 1]) == Expand(items[..k]) + Adds(Expand(items[..k]), items[k])
  {
    assert items[..k + 1][..k] == items[..k];
  }

  lemma {:induction false} ExpandGrows(items: seq<Item>, k: nat)
    requires Wellformed(items) && k < |items|
    ensures |Expand(items[..k])| < |Expand(items)|
    decreases |items| - k
  {
    ExpandNext(items, k);
    if k + 1 < |items| {
      ExpandGrows(items, k + 1);
    } else {
      assert items[..k + 1] == items;
    }
  }

  function Entry(x: Item): seq<nat> {
    if x.Length? then [x.len] else [Symbol(x), x.extra]
  }

  // The decoder reads one item off the front.
  lemma UnpackItem(x: Item, rest: seq<nat>, out: seq<nat>, total: nat)
    requires ItemOk(x) && |out| < total && (x.Repeat? ==> out != [])
    ensures Unpack(Entry(x) + rest, out, total) == Unpack(rest, out + Adds(out, x), total)
  {
    var p := Entry(x) + rest;
    if x.Length? {
      assert p[1..] == rest;
    } else {
      assert p[2..] == rest;
    }
  }

  // From any item on, the decoder produces the rest of the expansion.
  lemma {:induction false} UnpackItems(items: seq<Item>, k: nat)
    requires Wellformed(items) && k <= |items|
    ensures Unpack(Flat(items[k..]), Expand(items[..k]), |Expand(items)|) == Lengths(Expand(items))
    decreases |items| - k
  {
    if k == |items| {
      assert items[..k] == items;
    } else {
      hide Unpack, Expand, Flat;
      ExpandGrows(items, k);
      ExpandNext(items, k);
      UnpackItems(items, k + 1);
      FlatSplit(items, k);
      UnpackItem(items[k], Flat(items[k + 1..]), Expand(items[..k]), |Expand(items)|);
    }
  }

  // ---------------------------------------------------------------- the encoder

  // What is packed so far, plus the run being counted, is exactly the lengths read so far; a zero run
  // and a repeat run are never open together, and nothing is packed that does not stand for a length.
  ghost predicate Packing(done: seq<nat>, items: seq<Item>, packed: seq<nat>, counts: seq<nat>,
                          zeros: nat, repeats: nat, prev: nat) {
    && Wellformed(items) && packed == Flat(items)
    && |counts| == 19 && (forall c :: 0 <= c < 19 ==> counts[c] == Uses(items, c))
    && (zeros == 0 || repeats == 0)
    && (repeats > 0 ==> 0 < prev < 16 && Expand(items) != [] && Expand(items)[|Expand(items)| - 1] == prev)
    && done == Expand(items) + Copies(0, zeros) + Copies(prev, repeats)
    && |packed| + zeros + repeats <= |done|
    && zeros < 138 && repeats < 6 && prev < 256
    && (done != [] ==> prev == done[|done| - 1])
    && (done == [] ==> prev == 0xFF)
  }

  method Emit(packed: array<nat>, n: nat, counts: array<nat>, ghost items: seq<Item>, x: Item)
    returns (m: nat, ghost more: seq<Item>)
    requires packed != counts && counts.Length == 19 && ItemOk(x) && n + (if x.Length? then 1 else 2) <= packed.Length
    requires packed[..n] == Flat(items) && forall c :: 0 <= c < 19 ==> counts[c] == Uses(items, c)
    modifies packed, counts
    ensures m == n + (if x.Length? then 1 else 2) && more == items + [x]
    ensures packed[..m] == Flat(more) && forall c :: 0 <= c < 19 ==> counts[c] == Uses(more, c)
  {
    hide Flat, Uses;
    AppendItem(items, x);
    ghost var was := packed[..n];
    counts[Symbol(x)] := counts[Symbol(x)] + 1;
    if x.Length? {
      packed[n] := x.len;
      assert packed[..n + 1] == was + [x.len];
      m := n + 1;
    } else {
      packed[n], packed[n + 1] := Symbol(x), x.extra;
      assert packed[..n + 2] == was + [Symbol(x), x.extra];
      m := n + 2;
    }
    more := items + [x];
  }

  // Emit the same length a given number of times.
  method EmitEach(packed: array<nat>, n: nat, counts: array<nat>, ghost items: seq<Item>, v: nat, times: nat)
    returns (m: nat, ghost more: seq<Item>)
    requires packed != counts && counts.Length == 19 && v < 16 && n + times <= packed.Length && Wellformed(items)
    requires packed[..n] == Flat(items) && forall c :: 0 <= c < 19 ==> counts[c] == Uses(items, c)
    modifies packed, counts
    ensures m == n + times && Wellformed(more) && Expand(more) == Expand(items) + Copies(v, times)
    ensures packed[..m] == Flat(more) && forall c :: 0 <= c < 19 ==> counts[c] == Uses(more, c)
  {
    hide Flat, Uses, Wellformed, Expand;
    m, more := n, items;
    var left := times;
    while left > 0
      invariant 0 <= left <= times && m == n + times - left
      invariant Wellformed(more) && Expand(more) == Expand(items) + Copies(v, times - left)
      invariant packed[..m] == Flat(more) && forall c :: 0 <= c < 19 ==> counts[c] == Uses(more, c)
    {
      AppendItem(more, Length(v));
      assert Copies(v, times - left + 1) == Copies(v, times - left) + [v];
      m, more := Emit(packed, m, counts, more, Length(v));
      left := left - 1;
    }
  }

  // Close an open repeat run.
  method FlushRepeats(packed: array<nat>, n: nat, counts: array<nat>, ghost items: seq<Item>,
                      repeats: nat, prev: nat, ghost done: seq<nat>)
    returns (m: nat, ghost more: seq<Item>)
    requires packed != counts && |done| <= packed.Length
    requires 0 < prev < 16 && n <= packed.Length && counts.Length == 19 && 0 < repeats <= 6
    requires PackingRun(done, items, packed[..n], counts[..], repeats, prev)
    modifies packed, counts
    ensures m <= packed.Length && PackingRun(done, more, packed[..m], counts[..], 0, prev)
  {
    hide Flat, Uses, Wellformed, Expand;
    if repeats < 3 {
      m, more := EmitEach(packed, n, counts, items, prev, repeats);
    } else {
      AppendItem(items, Repeat(repeats - 3));
      m, more := Emit(packed, n, counts, items, Repeat(repeats - 3));
    }
  }

  // `done` is what is packed plus `run` more copies of `v`, repeats standing on an equal last length.
  ghost predicate PackingRun(done: seq<nat>, items: seq<Item>, packed: seq<nat>, counts: seq<nat>, run: nat, v: nat) {
    && Wellformed(items) && packed == Flat(items)
    && |counts| == 19 && (forall c :: 0 <= c < 19 ==> counts[c] == Uses(items, c))
    && (run > 0 && v != 0 ==> Expand(items) != [] && Expand(items)[|Expand(items)| - 1] == v)
    && done == Expand(items) + Copies(v, run)
    && |packed| + run <= |done|
  }

  // Close an open zero run.
  method FlushZeros(packed: array<nat>, n: nat, counts: array<nat>, ghost items: seq<Item>, zeros: nat,
                    ghost done: seq<nat>)
    returns (m: nat, ghost more: seq<Item>)
    requires packed != counts && |done| <= packed.Length && n <= packed.Length && counts.Length == 19
    requires 0 < zeros <= 138
    requires PackingRun(done, items, packed[..n], counts[..], zeros, 0)
    modifies packed, counts
    ensures m <= packed.Length && PackingRun(done, more, packed[..m], counts[..], 0, 0)
  {
    hide Flat, Uses, Wellformed, Expand;
    if zeros < 3 {
      m, more := EmitEach(packed, n, counts, items, 0, zeros);
    } else if zeros <= 10 {
      AppendItem(items, ShortZeros(zeros - 3));
      m, more := Emit(packed, n, counts, items, ShortZeros(zeros - 3));
    } else {
      AppendItem(items, LongZeros(zeros - 11));
      m, more := Emit(packed, n, counts, items, LongZeros(zeros - 11));
    }
  }

  // Read one code length.
  method PackOne(packed: array<nat>, n: nat, counts: array<nat>, zeros: nat, repeats: nat, prev: nat, size: nat,
                 ghost items: seq<Item>, ghost done: seq<nat>)
    returns (m: nat, z: nat, r: nat, ghost more: seq<Item>)
    requires packed != counts && |done| < packed.Length && n <= packed.Length && counts.Length == 19 && size < 16
    requires Packing(done, items, packed[..n], counts[..], zeros, repeats, prev)
    requires forall i :: 0 <= i < |done| ==> done[i] < 16
    modifies packed, counts
    ensures m <= packed.Length && Packing(done + [size], more, packed[..m], counts[..], z, r, size)
  {
    hide Flat, Uses, Wellformed, Expand;
    m, z, r, more := n, zeros, repeats, items;
    RunOf(done, items, packed[..n], counts[..], zeros, repeats, prev);
    if size == 0 {
      if r != 0 {
        m, more := FlushRepeats(packed, m, counts, more, r, prev, done);
        r := 0;
      }
      z := z + 1;
      assert done + [0] == Expand(more) + Copies(0, z);
      if z == 138 {
        m, more := FlushZeros(packed, m, counts, more, z, done + [size]);
        z := 0;
      }
    } else {
      if z != 0 {
        m, more := FlushZeros(packed, m, counts, more, z, done);
        z := 0;
      }
      if size != prev {
        if r != 0 {
          m, more := FlushRepeats(packed, m, counts, more, r, prev, done);
          r := 0;
        }
        AppendItem(more, Length(size));
        m, more := Emit(packed, m, counts, more, Length(size));
      } else {
        r := r + 1;
        assert done + [size] == Expand(more) + Copies(size, r);
        if r == 6 {
          m, more := FlushRepeats(packed, m, counts, more, r, prev, done + [size]);
          r := 0;
        }
      }
    }
  }

  // At most one of the two runs is open.
  lemma RunOf(done: seq<nat>, items: seq<Item>, packed: seq<nat>, counts: seq<nat>, zeros: nat, repeats: nat, prev: nat)
    requires Packing(done, items, packed, counts, zeros, repeats, prev)
    ensures if repeats > 0 then PackingRun(done, items, packed, counts, repeats, prev)
            else PackingRun(done, items, packed, counts, zeros, 0)
  {
    assert Copies(prev, 0) == [] && Copies(0, 0) == [];
  }

  // The packing loop. The packed entries fit where the lengths fit, the decoder reads the lengths
  // back, and the counts say how often each of the 19 symbols was used.
  method PackLengths(sizes: seq<nat>, packed: array<nat>, counts: array<nat>) returns (n: nat)
    requires packed != counts && packed.Length >= |sizes| && counts.Length == 19
    requires forall i :: 0 <= i < |sizes| ==> sizes[i] < 16
    modifies packed, counts
    ensures n <= |sizes| && Unpack(packed[..n], [], |sizes|) == Lengths(sizes)
    ensures exists items :: Wellformed(items) && packed[..n] == Flat(items) && Expand(items) == sizes
                            && forall c :: 0 <= c < 19 ==> counts[c] == Uses(items, c)
  {
    hide Packing;
    n := 0;
    var zeros, repeats, prev := 0, 0, 0xFF;
    ghost var items := [];
    forall c | 0 <= c < counts.Length {
      counts[c] := 0;
    }
    PackingStarts(packed[..0], counts[..]);
    for i := 0 to |sizes|
      invariant n <= packed.Length && Packing(sizes[..i], items, packed[..n], counts[..], zeros, repeats, prev)
    {
      n, zeros, repeats, items := PackOne(packed, n, counts, zeros, repeats, prev, sizes[i], items, sizes[..i]);
      prev := sizes[i];
      assert sizes[..i + 1] == sizes[..i] + [sizes[i]];
    }
    assert sizes[..|sizes|] == sizes;
    n, items := PackRest(packed, n, counts, zeros, repeats, prev, items, sizes);
    UnpackItems(items, 0);
    assert items[0..] == items && items[..0] == [];
  }

  lemma PackingStarts(packed: seq<nat>, counts: seq<nat>)
    requires packed == [] && |counts| == 19 && forall c :: 0 <= c < 19 ==> counts[c] == 0
    ensures Packing([], [], packed, counts, 0, 0, 0xFF)
  {
  }

  method PackRest(packed: array<nat>, n: nat, counts: array<nat>, zeros: nat, repeats: nat, prev: nat,
                  ghost items: seq<Item>, ghost sizes: seq<nat>)
    returns (m: nat, ghost more: seq<Item>)
    requires packed != counts && |sizes| <= packed.Length && n <= packed.Length && counts.Length == 19
    requires Packing(sizes, items, packed[..n], counts[..], zeros, repeats, prev)
    requires forall i :: 0 <= i < |sizes| ==> sizes[i] < 16
    modifies packed, counts
    ensures m <= |sizes| <= packed.Length && Wellformed(more) && packed[..m] == Flat(more) && Expand(more) == sizes
    ensures forall c :: 0 <= c < 19 ==> counts[c] == Uses(more, c)
  {
    hide Flat, Uses, Wellformed, Expand;
    m, more := n, items;
    RunOf(sizes, items, packed[..n], counts[..], zeros, repeats, prev);
    if repeats != 0 {
      m, more := FlushRepeats(packed, n, counts, items, repeats, prev, sizes);
    } else if zeros != 0 {
      m, more := FlushZeros(packed, n, counts, items, zeros, sizes);
    }
  }
}
