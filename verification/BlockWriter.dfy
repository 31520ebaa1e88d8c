// The block writer of libjade/miniz.c: tdefl_start_dynamic_block() and tdefl_compress_lz_codes() put exactly the
// fields of the block into the bit buffer.
module BlockWriter {
  import opened Bits
  import opened BitStream
  import opened CanonicalCode
  import opened InflateTables
  import opened InflateSymbols
  import opened BlockSymbols
  import opened LzCodes
  import opened BlockFormat
  import opened BlockHeader
  import opened HuffmanEncoder
  import HuffmanDepth
  import R = CodeLengthRle

  // m_huff_codes beside m_huff_code_sizes: every used symbol has its code as it is sent.
  ghost predicate CodesOf(sizes: seq<nat>, codes: seq<nat>) {
    && |codes| == |sizes| && (forall s :: 0 <= s < |sizes| ==> sizes[s] <= 15)
    && forall s :: 0 <= s < |sizes| && Used(sizes, s) ==> codes[s] == Wire(sizes, s)
  }

  // A code and its size, one after the other in the arrays.
  method PutSymbol(w: BitWriter, sizes: seq<nat>, codes: seq<nat>, s: nat)
    requires w.Valid() && CodesOf(sizes, codes) && Used(sizes, s)
    modifies w, w.out
    ensures w.Valid() && w.Ahead() && w.fields == old(w.fields) + [SymbolField(sizes, s)]
  {
    hide Wire;
    ghost var f := SymbolField(sizes, s);
    w.PutBits(codes[s], sizes[s]);
  }

  method PutMatch(w: BitWriter, lit: seq<nat>, litCodes: seq<nat>, dist: seq<nat>, distCodes: seq<nat>,
                  matchLen: nat, matchDist: nat)
    requires w.Valid() && CodesOf(lit, litCodes) && CodesOf(dist, distCodes)
    requires matchLen < 256 && matchDist < 32768 && Used(lit, LenSym(matchLen)) && Used(dist, DistSym(matchDist))
    modifies w, w.out
    ensures w.Valid() && w.Ahead()
    ensures w.fields == old(w.fields) + [SymbolField(lit, LenSym(matchLen)), LowField(matchLen, LenExtra(matchLen)),
                                         SymbolField(dist, DistSym(matchDist)),
                                         LowField(matchDist, DistExtra(matchDist))]
  {
    hide CodesOf, LenSym, LenExtra, BitWriter.Valid;
    PutSymbol(w, lit, litCodes, LenSym(matchLen));
    w.PutBits(Low(matchLen, LenExtra(matchLen)), LenExtra(matchLen));
    var sym, extra;
    if matchDist < 512 {
      sym, extra := SmallDistSym(matchDist), SmallDistExtra(matchDist);
    } else {
      sym, extra := LargeDistSym(matchDist / 256), LargeDistExtra(matchDist / 256);
    }
    PutSymbol(w, dist, distCodes, sym);
    w.PutBits(Low(matchDist, extra), extra);
  }

  // The loop over the code buffer sees the recorded operations, in order, and sends each; true if everything fitted.
  method CompressLzCodes(w: BitWriter, data: seq<Byte>, lit: seq<nat>, litCodes: seq<nat>, dist: seq<nat>,
                         distCodes: seq<nat>, ghost want: seq<Op>)
    returns (ok: bool)
    requires AllOk(want) && data == Packed(want) && w.Valid()
    requires CodesOf(lit, litCodes) && CodesOf(dist, distCodes) && AllSendable(lit, dist, want) && Used(lit, END)
    modifies w, w.out
    ensures w.Valid() && w.Ahead() && w.fields == old(w.fields) + Body(lit, dist, want) && ok == !w.Full()
  {
    hide Reading, Packed, Payload, OpOk, CodesOf, OpsFields, BitWriter.Valid, LenSym, LenExtra, DistSym, DistExtra;
    ghost var ops, before := [], w.fields;
    var at: nat, flags: nat := 0, 1;
    ghost var used: nat := 8;
    ReadingStarts(data, want);
    assert want[0..] == want;
    NothingSent(lit, dist);
    while at < |data|
      invariant 0 <= at <= |data| && |ops| <= |want| && ops == want[..|ops|] && w.Valid() && w.Ahead()
      invariant Reading(data, at, flags, want[|ops|..], used)
      invariant AllSendable(lit, dist, ops) && w.fields == before + OpsFields(lit, dist, ops)
      decreases |data| - at
    {
      ghost var rest := want[|ops|..];
      at, flags, used := NextFlags(data, at, flags, rest, used);
      NextOp(data, at, flags, rest, used);
      PayloadBytes(data, at, rest[0]);
      assert rest[0] == want[|ops|] && Sendable(lit, dist, want[|ops|]);
      SendOne(w, data, at, flags, lit, litCodes, dist, distCodes, rest[0]);
      at := at + (if flags % 2 == 1 then 3 else 1);
      OpsFieldsAppend(lit, dist, ops, rest[0]);
      assert want[|ops| + 1..] == rest[1..] && want[..|ops| + 1] == ops + [rest[0]];
      ops := ops + [rest[0]];
      flags := flags / 2;
      used := used + 1;
    }
    ReadingEnds(data, flags, want[|ops|..], used);
    assert ops == want;
    PutSymbol(w, lit, litCodes, END);
    ok := !w.Full();
  }

  // A new flag byte when the last one is used up.
  method NextFlags(data: seq<Byte>, at0: nat, flags0: nat, ghost rest: seq<Op>, ghost used0: nat)
    returns (at: nat, flags: nat, ghost used: nat)
    requires Reading(data, at0, flags0, rest, used0) && at0 < |data|
    ensures used < 8 && at <= |data| && Reading(data, at, flags, rest, used) && rest != []
    ensures |data| - at <= |data| - at0
  {
    hide Reading;
    at, flags, used := at0, flags0, used0;
    if flags == 1 {
      NewGroup(data, at, flags, rest, used);
      flags := 256 + data[at] as int;
      at := at + 1;
      used := 0;
    } else {
      MidGroup(data, at, flags, rest, used);
    }
    NextOp(data, at, flags, rest, used);
  }

  lemma NothingSent(lit: seq<nat>, dist: seq<nat>)
    ensures OpsFields(lit, dist, []) == []
  {
  }

  // One turn of that loop.
  method SendOne(w: BitWriter, data: seq<Byte>, at: nat, flags: nat, lit: seq<nat>, litCodes: seq<nat>, dist: seq<nat>,
                 distCodes: seq<nat>, ghost op: Op)
    requires w.Valid() && CodesOf(lit, litCodes) && CodesOf(dist, distCodes) && Sendable(lit, dist, op)
    requires at + |Payload(op)| <= |data| && data[at..at + |Payload(op)|] == Payload(op)
    requires flags % 2 == (if op.Match? then 1 else 0)
    modifies w, w.out
    ensures w.Valid() && w.Ahead() && w.fields == old(w.fields) + OpFields(lit, dist, op)
  {
    hide CodesOf, BitWriter.Valid, LenSym, LenExtra, DistSym, DistExtra;
    PayloadBytes(data, at, op);
    if flags % 2 == 1 {
      PutMatch(w, lit, litCodes, dist, distCodes, data[at], data[at + 1] as nat + 256 * data[at + 2] as nat);
    } else {
      PutSymbol(w, lit, litCodes, data[at]);
    }
  }

  // ---------------------------------------------------------------- unused symbols at the end

  ghost predicate ZeroFrom(sizes: seq<nat>, n: nat) {
    n <= |sizes| && forall k :: n <= k < |sizes| ==> sizes[k] == 0
  }

  lemma {:induction false} TrimBelow(sizes: seq<nat>, n: nat, k: nat, len: nat)
    requires k <= n <= |sizes|
    ensures CountBelow(sizes[..n], k, len) == CountBelow(sizes, k, len)
  {
    if k > 0 {
      TrimBelow(sizes, n, k - 1, len);
    }
  }

  lemma {:induction false} NoneBehind(sizes: seq<nat>, n: nat, m: nat, len: nat)
    requires ZeroFrom(sizes, n) && n <= m <= |sizes| && len > 0
    ensures CountBelow(sizes, m, len) == CountBelow(sizes, n, len)
  {
    if m > n {
      NoneBehind(sizes, n, m - 1, len);
    }
  }

  lemma {:induction false} TrimCounts(sizes: seq<nat>, n: nat, len: nat)
    requires ZeroFrom(sizes, n)
    ensures FirstCode(sizes[..n], len) == FirstCode(sizes, len) && UsedUpTo(sizes[..n], len) == UsedUpTo(sizes, len)
    ensures len > 0 ==> Count(sizes[..n], len) == Count(sizes, len)
  {
    if len > 0 {
      TrimBelow(sizes, n, n, len);
      NoneBehind(sizes, n, |sizes|, len);
      TrimCounts(sizes, n, len - 1);
    }
  }

  // Dropping them changes neither codes nor what the decoder's test says.
  lemma TrimCodes(sizes: seq<nat>, codes: seq<nat>, n: nat)
    requires ZeroFrom(sizes, n) && CodesOf(sizes, codes)
    ensures CodesOf(sizes[..n], codes[..n]) && (Gate(sizes) ==> Gate(sizes[..n]))
    ensures forall s: nat :: Used(sizes, s) <==> Used(sizes[..n], s)
  {
    TrimCounts(sizes, n, 16);
    TrimCounts(sizes, n, 15);
    forall s | 0 <= s < n && Used(sizes[..n], s) ensures Wire(sizes[..n], s) == Wire(sizes, s) {
      TrimCounts(sizes, n, sizes[s]);
      TrimBelow(sizes, n, s, sizes[s]);
    }
  }

  // The loop that looks for the last used symbol, from `hi` down to `lo`.
  method LastUsed(sizes: seq<nat>, hi: nat, lo: nat) returns (n: nat)
    requires lo <= hi <= |sizes| && ZeroFrom(sizes, hi)
    ensures lo <= n <= hi && ZeroFrom(sizes, n)
  {
    n := hi;
    while n > lo && sizes[n - 1] == 0
      invariant lo <= n <= hi && ZeroFrom(sizes, n)
    {
      n := n - 1;
    }
  }

  // ---------------------------------------------------------------- counts and sums

  lemma {:induction false} SumUpdate(c: seq<nat>, s: nat, v: nat)
    requires s < |c|
    ensures HuffmanDepth.Sum(c[s := v]) + c[s] == HuffmanDepth.Sum(c) + v
  {
    if s > 0 {
      SumUpdate(c[1..], s - 1, v);
      assert c[s := v][1..] == c[1..][s - 1 := v];
    } else {
      assert c[s := v][1..] == c[1..];
    }
  }

  lemma {:induction false} SumZeros(n: nat)
    ensures HuffmanDepth.Sum(R.Copies(0, n)) == 0
  {
    if n > 0 {
      assert R.Copies(0, n)[1..] == R.Copies(0, n - 1);
      SumZeros(n - 1);
    }
  }

  // Each operation needs one literal or length symbol, and at most one distance symbol.
  lemma {:induction false} CountsTotal(ops: seq<Op>)
    requires AllOk(ops)
    ensures HuffmanDepth.Sum(LitCounts(ops)) == |ops| && HuffmanDepth.Sum(DistCounts(ops)) <= |ops|
    ensures LitCounts(ops)[256] == LitCounts(ops)[286] == LitCounts(ops)[287] == 0
    ensures DistCounts(ops)[30] == DistCounts(ops)[31] == 0
  {
    hide HuffmanDepth.Sum, LitSym, DistSym;
    if ops == [] {
      SumZeros(LIT_SYMBOLS);
      SumZeros(DIST_SYMBOLS);
      assert LitCounts(ops) == R.Copies(0, LIT_SYMBOLS) && DistCounts(ops) == R.Copies(0, DIST_SYMBOLS);
    } else {
      var most, op := ops[..|ops| - 1], ops[|ops| - 1];
      CountsTotal(most);
      SumUpdate(LitCounts(most), LitSym(op), LitCounts(most)[LitSym(op)] + 1);
      if op.Match? {
        var s := DistSym(op.dist - 1);
        SumUpdate(DistCounts(most), s, DistCounts(most)[s] + 1);
      }
    }
  }

  // Every symbol an operation needs is counted.
  lemma {:induction false} CountsCover(ops: seq<Op>, i: nat)
    requires AllOk(ops) && i < |ops|
    ensures LitCounts(ops)[LitSym(ops[i])] > 0
    ensures ops[i].Match? ==> DistCounts(ops)[DistSym(ops[i].dist - 1)] > 0
  {
    hide LitSym, DistSym, OpOk;
    if i < |ops| - 1 {
      CountsCover(ops[..|ops| - 1], i);
    }
  }

  // Nine bytes for eight operations: a full code buffer holds few enough to count in 16 bits.
  lemma {:induction false} PackedLong(ops: seq<Op>)
    requires AllOk(ops)
    ensures 8 * |Packed(ops)| >= 9 * |ops|
    decreases |ops|
  {
    if ops != [] {
      hide Packed, Payloads, OpOk;
      PackedHead(ops);
      var k := if |ops| < 8 then |ops| else 8;
      PackedNonEmpty(ops[..k]);
      PackedLong(ops[k..]);
    }
  }

  // The uses of the 19 code length symbols add up to the items.
  lemma {:induction false} UsesTotal(items: seq<R.Item>, counts: seq<nat>)
    requires |counts| == CL_CODES && forall c :: 0 <= c < CL_CODES ==> counts[c] == R.Uses(items, c)
    requires forall i :: 0 <= i < |items| ==> R.ItemOk(items[i])
    ensures HuffmanDepth.Sum(counts) == |items| <= |R.Flat(items)|
    ensures forall i :: 0 <= i < |items| ==> R.Symbol(items[i]) < CL_CODES && counts[R.Symbol(items[i])] > 0
  {
    hide HuffmanDepth.Sum;
    if items == [] {
      SumZeros(CL_CODES);
      assert counts == R.Copies(0, CL_CODES);
    } else {
      var n := |items| - 1;
      var s := R.Symbol(items[n]);
      var before := counts[s := counts[s] - 1];
      UsesTotal(items[..n], before);
      SumUpdate(before, s, counts[s]);
      assert before[s := counts[s]] == counts;
    }
  }

  // ---------------------------------------------------------------- the header

  lemma {:induction false} ItemsAppend(cl: seq<nat>, items: seq<R.Item>, x: R.Item)
    requires Coded(cl, items) && Used(cl, R.Symbol(x))
    ensures Coded(cl, items + [x])
    ensures ItemsFields(cl, items + [x]) == ItemsFields(cl, items) + ItemFields(cl, x)
  {
    hide ItemFields;
    if items == [] {
      assert items + [x] == [x] && [x][1..] == [];
      assert ItemFields(cl, x) + [] == ItemFields(cl, x);
    } else {
      assert (items + [x])[1..] == items[1..] + [x];
      ItemsAppend(cl, items[1..], x);
    }
  }

  // The packed code lengths, each as its symbol and its extra bits.
  method PutItems(w: BitWriter, packed: seq<nat>, cl: seq<nat>, codes: seq<nat>, ghost items: seq<R.Item>)
    requires w.Valid() && CodesOf(cl, codes) && Coded(cl, items) && packed == R.Flat(items)
    requires forall i :: 0 <= i < |items| ==> R.ItemOk(items[i])
    modifies w, w.out
    ensures w.Valid() && w.Ahead() && w.fields == old(w.fields) + ItemsFields(cl, items)
  {
    hide CodesOf, BitWriter.Valid, ItemsFields, R.Flat;
    var at := 0;
    ghost var k := 0;
    NoItems(cl);
    assert items[0..] == items && packed[0..] == packed && items[..0] == [];
    while at < |packed|
      invariant 0 <= at <= |packed| && 0 <= k <= |items| && packed[at..] == R.Flat(items[k..])
      invariant w.Valid() && w.Ahead() && w.fields == old(w.fields) + ItemsFields(cl, items[..k])
      decreases |packed| - at
    {
      FirstEntry(packed, at, items, k);
      var code := packed[at];
      at := at + 1;
      PutSymbol(w, cl, codes, code);
      if code >= 16 {
        ExtraFits(items[k]);
        w.PutBits(packed[at], ExtraBits(code));
        at := at + 1;
      }
      ItemsAppend(cl, items[..k], items[k]);
      assert items[..k + 1] == items[..k] + [items[k]];
      k := k + 1;
    }
    AllEntries(packed, items, k);
    assert items[..k] == items;
  }

  lemma NoItems(cl: seq<nat>)
    ensures ItemsFields(cl, []) == []
  {
  }

  lemma ExtraFits(x: R.Item)
    requires R.ItemOk(x) && !x.Length?
    ensures FieldOk(Field(x.extra, ExtraBits(R.Symbol(x))))
  {
    assert Pow2(2) == 4 && Pow2(3) == 8 && Pow2(7) == 128;
  }

  lemma FirstEntry(packed: seq<nat>, at: nat, items: seq<R.Item>, k: nat)
    requires at < |packed| && k <= |items| && packed[at..] == R.Flat(items[k..])
    requires forall i :: 0 <= i < |items| ==> R.ItemOk(items[i])
    ensures k < |items| && packed[at] == R.Symbol(items[k]) && (packed[at] >= 16 <==> !items[k].Length?)
    ensures packed[at] < 16 ==> packed[at + 1..] == R.Flat(items[k + 1..])
    ensures packed[at] >= 16 ==>
              at + 1 < |packed| && packed[at + 1] == items[k].extra && packed[at + 2..] == R.Flat(items[k + 1..])
  {
    if k < |items| {
      R.FlatSplit(items, k);
      hide R.Flat;
      var tail := packed[at..];
      assert packed[at] == tail[0] && packed[at + 1..] == tail[1..];
      if !items[k].Length? {
        assert packed[at + 1] == tail[1] && packed[at + 2..] == tail[2..];
      }
    }
  }

  lemma AllEntries(packed: seq<nat>, items: seq<R.Item>, k: nat)
    requires k <= |items| && R.Flat(items[k..]) == packed[|packed|..]
    requires forall i :: 0 <= i < |items| ==> R.ItemOk(items[i])
    ensures k == |items|
  {
    if k < |items| {
      R.FlatSplit(items, k);
    }
  }

  // The lengths of the code for the lengths, in their own order.
  method PutLengths(w: BitWriter, cl: seq<nat>) returns (n: nat)
    requires w.Valid() && |cl| == CL_CODES && forall k :: 0 <= k < CL_CODES ==> cl[k] < 8
    modifies w, w.out
    ensures n == NumLengths(cl, CL_CODES) && w.Valid() && w.Ahead()
    ensures w.fields == old(w.fields) + ([Field(n - 4, 4)] + LengthFields(cl, 0, n))
  {
    hide SWIZZLE, BitWriter.Valid, LengthFields, NumLengths;
    SwizzleSizes();
    n := CL_CODES;
    while n > 4 && cl[SWIZZLE[n - 1]] == 0
      invariant 4 <= n <= CL_CODES && NumLengths(cl, n) == NumLengths(cl, CL_CODES)
      invariant w.Valid() && w.Ahead() && w.fields == old(w.fields)
    {
      NumLengthsStep(cl, n);
      n := n - 1;
    }
    NumLengthsStep(cl, n);
    FourBits(n);
    w.PutBits(n - 4, 4);
    ghost var before := w.fields;
    for i := 0 to n
      invariant w.Valid() && w.Ahead() && w.fields + LengthFields(cl, i, n) == before + LengthFields(cl, 0, n)
    {
      LengthFieldsHead(cl, i, n, []);
      assert LengthFields(cl, i, n) + [] == LengthFields(cl, i, n);
      assert LengthFields(cl, i + 1, n) + [] == LengthFields(cl, i + 1, n);
      ThreeBits();
      w.PutBits(cl[SWIZZLE[i]], 3);
    }
    LengthFieldsHead(cl, n, n, []);
    assert LengthFields(cl, n, n) + [] == LengthFields(cl, n, n);
    assert before + LengthFields(cl, 0, n) == old(w.fields) + ([Field(n - 4, 4)] + LengthFields(cl, 0, n));
  }

  lemma FourBits(n: nat)
    requires 4 <= n <= CL_CODES
    ensures FieldOk(Field(n - 4, 4))
  {
    assert Pow2(4) == 16;
  }

  lemma NumLengthsStep(cl: seq<nat>, n: nat)
    requires |cl| == CL_CODES && 4 <= n <= CL_CODES
    ensures |SWIZZLE| == CL_CODES && SWIZZLE[n - 1] < CL_CODES
    ensures NumLengths(cl, n) == if n == 4 || cl[SWIZZLE[n - 1]] != 0 then n else NumLengths(cl, n - 1)
  {
    SwizzleSizes();
  }

  // One of the two codes: its sizes and codes, without the unused symbols at the end.
  method MakeCode(counts: seq<nat>, hi: nat, lo: nat) returns (sizes: seq<nat>, codes: seq<nat>)
    requires HuffmanDepth.Sum(counts) <= 65535 && |counts| <= 32768 && 1 <= lo <= hi <= |counts|
    requires forall k :: hi <= k < |counts| ==> counts[k] == 0
    ensures CodesOf(sizes, codes) && Gate(sizes) && lo <= |sizes| <= hi
    ensures forall s: nat :: Used(sizes, s) <==> s < |counts| && counts[s] > 0
  {
    hide HuffmanDepth.Sum, Accepted, Complete, UsedUpTo, Wire, Gate, CodesOf;
    Pow2Values();
    var all, wires := OptimizeTable(counts, 15);
    Gated(all[..]);
    AllCodes(all[..], wires[..], counts);
    var n := LastUsed(all[..], hi, lo);
    TrimCodes(all[..], wires[..], n);
    sizes, codes := all[..][..n], wires[..][..n];
  }

  lemma Gated(sizes: seq<nat>)
    requires Accepted(sizes)
    ensures Gate(sizes)
  {
    GateOpen(sizes);
  }

  lemma AllCodes(sizes: seq<nat>, codes: seq<nat>, counts: seq<nat>)
    requires |sizes| == |codes| == |counts|
    requires forall s :: 0 <= s < |counts| ==> sizes[s] <= 15 && (sizes[s] > 0 <==> counts[s] > 0)
    requires forall s :: 0 <= s < |counts| && counts[s] > 0 ==> codes[s] == Wire(sizes, s)
    ensures CodesOf(sizes, codes) && forall s: nat :: Used(sizes, s) <==> s < |counts| && counts[s] > 0
  {
  }

  // The code for the packed lengths.
  method MakeLengthCode(counts: seq<nat>, ghost items: seq<R.Item>) returns (cl: seq<nat>, codes: seq<nat>)
    requires |counts| == CL_CODES && forall c :: 0 <= c < CL_CODES ==> counts[c] == R.Uses(items, c)
    requires |R.Flat(items)| <= 320 && forall i :: 0 <= i < |items| ==> R.ItemOk(items[i])
    ensures |cl| == CL_CODES && CodesOf(cl, codes) && Gate(cl) && Coded(cl, items)
    ensures forall k :: 0 <= k < CL_CODES ==> cl[k] < 8
  {
    hide HuffmanDepth.Sum, Accepted, Complete, UsedUpTo, Wire, Gate, R.Flat, R.Uses;
    Pow2Values();
    UsesTotal(items, counts);
    var all, wires := OptimizeTable(counts, 7);
    Gated(all[..]);
    AllCodes(all[..], wires[..], counts);
    cl, codes := all[..], wires[..];
  }

  // The header: both codes, packed and sent with a code of their own.
  method StartDynamicBlock(w: BitWriter, litCounts: seq<nat>, distCounts: seq<nat>)
    returns (lit: seq<nat>, litCodes: seq<nat>, dist: seq<nat>, distCodes: seq<nat>, ghost h: Header)
    requires w.Valid() && |litCounts| == LIT_SYMBOLS && |distCounts| == DIST_SYMBOLS
    requires HuffmanDepth.Sum(litCounts) < 65535 && HuffmanDepth.Sum(distCounts) <= 65535
    requires litCounts[256] == litCounts[286] == litCounts[287] == 0 && distCounts[30] == distCounts[31] == 0
    modifies w, w.out
    ensures HeaderOk(h) && h.lit == lit && h.dist == dist
    ensures w.Valid() && w.Ahead() && w.fields == old(w.fields) + HeaderFields(h)
    ensures CodesOf(lit, litCodes) && CodesOf(dist, distCodes)
    ensures forall s: nat :: Used(lit, s) <==> s < LIT_SYMBOLS && (litCounts[s] > 0 || s == END)
    ensures forall s: nat :: Used(dist, s) <==> s < DIST_SYMBOLS && distCounts[s] > 0
  {
    hide HuffmanDepth.Sum, Gate, CodesOf, BitWriter.Valid, ItemsFields, LengthFields, NumLengths, R.Flat, R.Unpack;
    hide R.Wellformed, R.Expand, Coded, R.Uses, Used;
    SumUpdate(litCounts, END, 1);
    lit, litCodes := MakeCode(litCounts[END := 1], 286, 257);
    dist, distCodes := MakeCode(distCounts, 30, 1);
    var toPack := lit + dist;
    var packed, counts := new nat[320], new nat[CL_CODES];
    LengthsShort(lit, litCodes, dist, distCodes);
    var n := R.PackLengths(toPack, packed, counts);
    ghost var items :| R.Wellformed(items) && packed[..n] == R.Flat(items) && R.Expand(items) == toPack
                       && forall c :: 0 <= c < 19 ==> counts[c] == R.Uses(items, c);
    ItemsOk(items);
    var cl, clCodes := MakeLengthCode(counts[..], items);
    h := Header(lit, dist, cl, items);
    PutHeader(w, |lit|, |dist|, packed[..n], cl, clCodes, h);
  }

  // The header's fields, one after the other.
  method PutHeader(w: BitWriter, lits: nat, dists: nat, packed: seq<nat>, cl: seq<nat>, codes: seq<nat>,
                   ghost h: Header)
    requires w.Valid() && HeaderOk(h) && h.cl == cl && lits == |h.lit| <= 286 && dists == |h.dist| <= 30
    requires CodesOf(cl, codes) && packed == R.Flat(h.items)
    modifies w, w.out
    ensures w.Valid() && w.Ahead() && w.fields == old(w.fields) + HeaderFields(h)
  {
    hide Gate, CodesOf, BitWriter.Valid, ItemsFields, LengthFields, NumLengths, R.Flat, R.Expand;
    ItemsOk(h.items);
    hide R.Wellformed, Coded;
    SmallFields(lits, dists);
    w.PutBits(2, 2);
    w.PutBits(lits - 257, 5);
    w.PutBits(dists - 1, 5);
    var _ := PutLengths(w, cl);
    PutItems(w, packed, cl, codes, h.items);
  }

  lemma ItemsOk(items: seq<R.Item>)
    requires R.Wellformed(items)
    ensures forall i :: 0 <= i < |items| ==> R.ItemOk(items[i])
  {
  }

  lemma LengthsShort(lit: seq<nat>, litCodes: seq<nat>, dist: seq<nat>, distCodes: seq<nat>)
    requires CodesOf(lit, litCodes) && CodesOf(dist, distCodes)
    ensures forall i :: 0 <= i < |lit + dist| ==> (lit + dist)[i] < 16
  {
  }

  lemma SmallFields(lits: nat, dists: nat)
    requires 257 <= lits <= 286 && 1 <= dists <= 30
    ensures FieldOk(Field(2, 2)) && FieldOk(Field(lits - 257, 5)) && FieldOk(Field(dists - 1, 5))
  {
    assert Pow2(2) == 4 && Pow2(5) == 32;
  }

  // ---------------------------------------------------------------- the block

  // tdefl_compress_block() with codes of its own: what is recorded, counted and packed, as one dynamic block. True
  // if all of it fitted.
  method CompressDynamic(w: BitWriter, data: seq<Byte>, litCounts: seq<nat>, distCounts: seq<nat>, ghost ops: seq<Op>)
    returns (ok: bool, ghost h: Header)
    requires w.Valid() && AllOk(ops) && data == Packed(ops) && |data| <= CODE_BUF_SIZE
    requires litCounts == LitCounts(ops) && distCounts == DistCounts(ops)
    modifies w, w.out
    ensures w.Valid() && w.Ahead() && HeaderOk(h) && AllSendable(h.lit, h.dist, ops) && Used(h.lit, END)
    ensures w.fields == old(w.fields) + (HeaderFields(h) + Body(h.lit, h.dist, ops)) && ok == !w.Full()
  {
    hide HuffmanDepth.Sum, CodesOf, BitWriter.Valid, HeaderFields, Body, Packed, LitCounts, DistCounts, Used, HeaderOk;
    CountsTotal(ops);
    PackedLong(ops);
    var lit, litCodes, dist, distCodes;
    lit, litCodes, dist, distCodes, h := StartDynamicBlock(w, litCounts, distCounts);
    forall i | 0 <= i < |ops| ensures Sendable(lit, dist, ops[i]) {
      CountsCover(ops, i);
    }
    ok := CompressLzCodes(w, data, lit, litCodes, dist, distCodes, ops);
  }

  // The static codes, assigned from their fixed sizes.
  method StaticCode(sizes: seq<nat>) returns (codes: seq<nat>)
    requires forall k :: 0 <= k < |sizes| ==> sizes[k] <= 15
    ensures CodesOf(sizes, codes)
  {
    var nums := new int[16](_ => 0);
    for i := 0 to |sizes|
      invariant forall l :: 0 <= l <= 15 ==> nums[l] == CountBelow(sizes, i, l)
    {
      nums[sizes[i]] := nums[sizes[i]] + 1;
    }
    var wires := AssignCodes(sizes, nums[..], 15);
    codes := wires[..];
  }

  // tdefl_compress_block() with the fixed codes.
  method CompressStatic(w: BitWriter, data: seq<Byte>, ghost ops: seq<Op>) returns (ok: bool)
    requires w.Valid() && AllOk(ops) && data == Packed(ops)
    modifies w, w.out
    ensures w.Valid() && w.Ahead() && ok == !w.Full()
    ensures AllSendable(STATIC_LIT, STATIC_DIST, ops) && Used(STATIC_LIT, END)
    ensures w.fields == old(w.fields) + ([Field(1, 2)] + Body(STATIC_LIT, STATIC_DIST, ops))
  {
    hide Packed, Body, STATIC_LIT, STATIC_DIST, FirstCode, CodesOf, BitWriter.Valid, AllSendable, Used, Pow2;
    StaticSendable(ops);
    StaticLengths();
    TwoBits(1);
    var litCodes := StaticCode(STATIC_LIT);
    var distCodes := StaticCode(STATIC_DIST);
    w.PutBits(1, 2);
    ok := CompressLzCodes(w, data, STATIC_LIT, litCodes, STATIC_DIST, distCodes, ops);
  }

  lemma TwoBits(kind: nat)
    requires kind < 4
    ensures FieldOk(Field(kind, 2))
  {
    assert Pow2(2) == 4;
  }

  lemma StaticLengths()
    ensures forall k :: 0 <= k < |STATIC_LIT| ==> STATIC_LIT[k] <= 15
    ensures forall k :: 0 <= k < |STATIC_DIST| ==> STATIC_DIST[k] <= 15
  {
  }
}
