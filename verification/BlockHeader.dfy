// The header of a dynamic block (section 3.2.7 of RFC 1951): code lengths, packed into runs and sent with a code
// of their own. What tdefl_start_dynamic_block() writes, tinfl_decompress() reads (libjade/miniz.c).
module BlockHeader {
  import opened Bits
  import opened BitStream
  import opened CanonicalCode
  import opened InflateTables
  import opened InflateSymbols
  import opened BlockSymbols
  import opened LzCodes
  import opened BlockFormat
  import opened BlockStored
  import R = CodeLengthRle

  // s_tdefl_packed_code_size_syms_swizzle, which is s_length_dezigzag
  const SWIZZLE: seq<nat> := [16, 17, 18, 0, 8, 7, 9, 6, 10, 5, 11, 4, 12, 3, 13, 2, 14, 1, 15]

  // Where each of them stands in it.
  const PLACE: seq<nat> := [3, 17, 15, 13, 11, 9, 7, 5, 4, 6, 8, 10, 12, 14, 16, 18, 0, 1, 2]

  lemma Swizzled(i: nat)
    requires i < CL_CODES
    ensures |SWIZZLE| == |PLACE| == CL_CODES && SWIZZLE[i] < CL_CODES && PLACE[i] < CL_CODES
    ensures PLACE[SWIZZLE[i]] == i && SWIZZLE[PLACE[i]] == i
  {
  }

  lemma SwizzleSizes()
    ensures |SWIZZLE| == |PLACE| == CL_CODES
    ensures forall i :: 0 <= i < CL_CODES ==> SWIZZLE[i] < CL_CODES && PLACE[i] < CL_CODES
  {
    forall i | 0 <= i < CL_CODES ensures SWIZZLE[i] < CL_CODES && PLACE[i] < CL_CODES {
      Swizzled(i);
    }
  }

  // What the decoder's size test lets through.
  ghost predicate Gate(sizes: seq<nat>) {
    FirstCode(sizes, 16) == 65536 || UsedUpTo(sizes, 15) <= 1
  }

  // ---------------------------------------------------------------- the fields

  // Without the unused ones at the end, but at least four.
  function NumLengths(cl: seq<nat>, n: nat): (r: nat)
    requires |cl| == CL_CODES && n <= CL_CODES
    ensures n >= 4 ==> 4 <= r <= n
  {
    SwizzleSizes();
    if n <= 4 || cl[SWIZZLE[n - 1]] != 0 then n else NumLengths(cl, n - 1)
  }

  function LengthFields(cl: seq<nat>, i: nat, n: nat): seq<Field>
    requires |cl| == CL_CODES && i <= n <= CL_CODES
    decreases n - i
  {
    SwizzleSizes();
    if i == n then [] else [Field(cl[SWIZZLE[i]], 3)] + LengthFields(cl, i + 1, n)
  }

  function ExtraBits(sym: nat): nat {
    if sym == 16 then 2 else if sym == 17 then 3 else 7
  }

  ghost function ItemFields(cl: seq<nat>, x: R.Item): seq<Field>
    requires Used(cl, R.Symbol(x))
  {
    var sym := R.Symbol(x);
    if x.Length? then [SymbolField(cl, sym)] else [SymbolField(cl, sym), Field(x.extra, ExtraBits(sym))]
  }

  ghost predicate Coded(cl: seq<nat>, items: seq<R.Item>) {
    forall i :: 0 <= i < |items| ==> Used(cl, R.Symbol(items[i]))
  }

  ghost function ItemsFields(cl: seq<nat>, items: seq<R.Item>): seq<Field>
    requires Coded(cl, items)
  {
    if items == [] then [] else ItemFields(cl, items[0]) + ItemsFields(cl, items[1..])
  }

  // The code lengths of both codes, packed, and the lengths of the code they are sent with.
  datatype Header = Header(lit: seq<nat>, dist: seq<nat>, cl: seq<nat>, items: seq<R.Item>)

  ghost predicate HeaderOk(h: Header) {
    && Tabled(h.lit, h.dist) && |h.cl| == CL_CODES
    && (forall k :: 0 <= k < CL_CODES ==> h.cl[k] < 8) && Gate(h.cl) && Gate(h.lit) && Gate(h.dist)
    && R.Wellformed(h.items) && R.Expand(h.items) == h.lit + h.dist && Coded(h.cl, h.items)
  }

  ghost function HeaderFields(h: Header): seq<Field>
    requires HeaderOk(h)
  {
    var n := NumLengths(h.cl, CL_CODES);
    [Field(2, 2), Field(|h.lit| - 257, 5), Field(|h.dist| - 1, 5), Field(n - 4, 4)]
    + (LengthFields(h.cl, 0, n) + ItemsFields(h.cl, h.items))
  }

  // ---------------------------------------------------------------- reading it

  function ReadLengths(i: nat, n: nat, cl: seq<nat>, input: Input): (r: Read<seq<nat>>)
    requires |cl| == CL_CODES && i <= n <= CL_CODES && forall k :: 0 <= k < CL_CODES ==> cl[k] < 8
    ensures r.Read? ==> |r.value| == CL_CODES && forall k :: 0 <= k < CL_CODES ==> r.value[k] < 8
    ensures r.Read? ==> r.rest.count <= input.count
    decreases n - i
  {
    SwizzleSizes();
    if i == n then Read(cl, input)
    else
      var s := ReadBits(3, input);
      if s.Failed? then Failed
      else
        assert Pow2(3) == 8;
        ReadLengths(i + 1, n, cl[SWIZZLE[i] := s.value], s.rest)
  }

  // Runs of lengths behind those in `out`, up to `total` of them.
  ghost function ReadRuns(cl: seq<nat>, out: seq<nat>, total: nat, input: Input): (r: Read<seq<nat>>)
    requires |cl| == CL_CODES && forall k :: 0 <= k < |out| ==> out[k] <= 15
    ensures r.Read? ==> |r.value| == total && forall k :: 0 <= k < |r.value| ==> r.value[k] <= 15
    ensures r.Read? ==> r.rest.count <= input.count
    decreases total - |out|
  {
    if |out| >= total then (if |out| == total then Read(out, input) else Failed)
    else
      var sym := ReadSymbol(cl, input);
      if sym.Failed? || (sym.value == 16 && out == []) then Failed
      else if sym.value < 16 then ReadRuns(cl, out + [sym.value], total, sym.rest)
      else
        var extra := ReadBits(ExtraBits(sym.value), sym.rest);
        if extra.Failed? then Failed
        else
          var s := extra.value + (if sym.value == 18 then 11 else 3);
          ReadRuns(cl, out + R.Copies(if sym.value == 16 then out[|out| - 1] else 0, s), total, extra.rest)
  }

  datatype Codes = Codes(lit: seq<nat>, dist: seq<nat>)

  // The fixed code of section 3.2.6 of RFC 1951.
  const STATIC_LIT: seq<nat> := R.Copies(8, 144) + R.Copies(9, 112) + R.Copies(7, 24) + R.Copies(8, 8)
  const STATIC_DIST: seq<nat> := R.Copies(5, 32)

  // The codes a block brings, if it is not a stored one.
  ghost function ReadCodes(input: Input): (r: Read<Codes>)
    ensures r.Read? ==> Tabled(r.value.lit, r.value.dist) && Lengths(r.value.lit) && Lengths(r.value.dist)
    ensures r.Read? ==> r.rest.count <= input.count
  {
    var kind := ReadBits(2, input);
    if kind.Failed? || kind.value == 0 || kind.value == 3 then Failed
    else if kind.value == 1 then Read(Codes(STATIC_LIT, STATIC_DIST), kind.rest)
    else ReadDynamic(kind.rest)
  }

  ghost function ReadDynamic(input: Input): (r: Read<Codes>)
    ensures r.Read? ==> Tabled(r.value.lit, r.value.dist) && Lengths(r.value.lit) && Lengths(r.value.dist)
    ensures r.Read? ==> r.rest.count <= input.count
    ensures r.Read? ==> Gate(r.value.lit) && Gate(r.value.dist)
  {
    assert Pow2(5) == 32 && Pow2(4) == 16;
    var a := ReadBits(5, input);
    if a.Failed? then Failed
    else
      var b := ReadBits(5, a.rest);
      if b.Failed? then Failed
      else
        var c := ReadBits(4, b.rest);
        if c.Failed? then Failed
        else ReadSizes(a.value + 257, b.value + 1, c.value + 4, c.rest)
  }

  ghost function ReadSizes(lits: nat, dists: nat, n: nat, input: Input): (r: Read<Codes>)
    requires 257 <= lits <= LIT_SYMBOLS && 1 <= dists <= DIST_SYMBOLS && 4 <= n <= CL_CODES
    ensures r.Read? ==> Tabled(r.value.lit, r.value.dist) && Lengths(r.value.lit) && Lengths(r.value.dist)
    ensures r.Read? ==> r.rest.count <= input.count
    ensures r.Read? ==> Gate(r.value.lit) && Gate(r.value.dist)
  {
    var cl := ReadLengths(0, n, R.Copies(0, CL_CODES), input);
    if cl.Failed? || !Gate(cl.value) then Failed
    else
      var all := ReadRuns(cl.value, [], lits + dists, cl.rest);
      if all.Failed? || !Gate(all.value[..lits]) || !Gate(all.value[lits..]) then Failed
      else Read(Codes(all.value[..lits], all.value[lits..]), all.rest)
  }

  // A whole block: stored bytes, or its codes and then its operations.
  ghost function ReadBlock(input: Input, room: nat): (r: Read<seq<Op>>)
    ensures r.Read? ==> r.rest.count <= input.count && Produced(r.value) <= room
  {
    var kind := ReadBits(2, input);
    if kind.Read? && kind.value == 0 then ReadStored(kind.rest, room)
    else
      var codes := ReadCodes(input);
      if codes.Failed? then Failed else ReadOps(codes.value.lit, codes.value.dist, codes.rest, room)
  }

  // ---------------------------------------------------------------- read back

  // The code's lengths as far as they have been read.
  function Partly(cl: seq<nat>, i: nat): (r: seq<nat>)
    requires |cl| == CL_CODES && i <= CL_CODES
    ensures |r| == CL_CODES
    ensures (SwizzleSizes(); forall k :: 0 <= k < CL_CODES ==> r[k] == if PLACE[k] < i then cl[k] else 0)
  {
    SwizzleSizes();
    seq(CL_CODES, k requires 0 <= k < CL_CODES => if PLACE[k] < i then cl[k] else 0)
  }

  lemma PartlyNext(cl: seq<nat>, i: nat)
    requires |cl| == CL_CODES && i < CL_CODES
    ensures |SWIZZLE| == CL_CODES && SWIZZLE[i] < CL_CODES
    ensures Partly(cl, i)[SWIZZLE[i] := cl[SWIZZLE[i]]] == Partly(cl, i + 1)
  {
    hide SWIZZLE, PLACE;
    SwizzleSizes();
    var now, next := Partly(cl, i)[SWIZZLE[i] := cl[SWIZZLE[i]]], Partly(cl, i + 1);
    forall k | 0 <= k < CL_CODES ensures now[k] == next[k] {
      Swizzled(i);
      Swizzled(k);
    }
  }

  // What is not sent is zero.
  lemma {:induction false} UnsentZero(cl: seq<nat>, n: nat, i: nat)
    requires |cl| == CL_CODES && n <= CL_CODES && NumLengths(cl, n) <= i < n && |SWIZZLE| == CL_CODES
    ensures SWIZZLE[i] < CL_CODES && cl[SWIZZLE[i]] == 0
    decreases n
  {
    SwizzleSizes();
    if i < n - 1 {
      UnsentZero(cl, n - 1, i);
    }
  }

  lemma PartlyAll(cl: seq<nat>)
    requires |cl| == CL_CODES
    ensures Partly(cl, NumLengths(cl, CL_CODES)) == cl && Partly(cl, 0) == R.Copies(0, CL_CODES)
  {
    hide SWIZZLE, PLACE;
    SwizzleSizes();
    var n := NumLengths(cl, CL_CODES);
    forall k | 0 <= k < CL_CODES ensures Partly(cl, n)[k] == cl[k] {
      Swizzled(k);
      if PLACE[k] >= n {
        UnsentZero(cl, CL_CODES, PLACE[k]);
      }
    }
  }

  lemma LengthFieldsHead(cl: seq<nat>, i: nat, n: nat, fields: seq<Field>)
    requires |cl| == CL_CODES && i <= n <= CL_CODES
    ensures i == n ==> LengthFields(cl, i, n) + fields == fields
    ensures i < n ==> |SWIZZLE| == CL_CODES && SWIZZLE[i] < CL_CODES &&
                      LengthFields(cl, i, n) + fields ==
                      [Field(cl[SWIZZLE[i]], 3)] + (LengthFields(cl, i + 1, n) + fields)
  {
    SwizzleSizes();
  }

  lemma ThreeBits()
    ensures Pow2(3) == 8
  {
  }

  lemma {:induction false} LengthsBack(cl: seq<nat>, i: nat, n: nat, fields: seq<Field>, rest: Input)
    requires |cl| == CL_CODES && i <= n <= CL_CODES && forall k :: 0 <= k < CL_CODES ==> cl[k] < 8
    ensures ReadLengths(i, n, Partly(cl, i), Sent(LengthFields(cl, i, n) + fields, rest)) ==
            Read(Partly(cl, n), Sent(fields, rest))
    decreases n - i
  {
    hide Partly, Sent, ReadBits, SWIZZLE, Pow2, LengthFields;
    LengthFieldsHead(cl, i, n, fields);
    if i < n {
      SwizzleSizes();
      PartlyNext(cl, i);
      ThreeBits();
      var f, more := Field(cl[SWIZZLE[i]], 3), LengthFields(cl, i + 1, n) + fields;
      BitsReadBack(f, more, rest);
      LengthsBack(cl, i + 1, n, fields, rest);
    }
  }

  // One item off the front.
  lemma ItemBack(cl: seq<nat>, x: R.Item, out: seq<nat>, total: nat, fields: seq<Field>, rest: Input)
    requires |cl| == CL_CODES && Fits(cl) && R.ItemOk(x) && Used(cl, R.Symbol(x)) && |out| < total
    requires (x.Repeat? ==> out != []) && forall k :: 0 <= k < |out| ==> out[k] <= 15
    ensures forall k :: 0 <= k < |R.Adds(out, x)| ==> R.Adds(out, x)[k] <= 15
    ensures ReadRuns(cl, out, total, Sent(ItemFields(cl, x) + fields, rest)) ==
            ReadRuns(cl, out + R.Adds(out, x), total, Sent(fields, rest))
  {
    hide ReadSymbol, Sent, ReadBits;
    var sym := R.Symbol(x);
    var f := SymbolField(cl, sym);
    if x.Length? {
      assert ItemFields(cl, x) + fields == [f] + fields;
      SymbolReadsBack(cl, sym, fields, rest);
    } else {
      var e := Field(x.extra, ExtraBits(sym));
      assert ItemFields(cl, x) + fields == [f] + ([e] + fields);
      assert Pow2(2) == 4 && Pow2(3) == 8 && Pow2(7) == 128;
      SymbolReadsBack(cl, sym, [e] + fields, rest);
      BitsReadBack(e, fields, rest);
      var v, n := if sym == 16 then out[|out| - 1] else 0, x.extra + (if sym == 18 then 11 else 3);
      assert R.Adds(out, x) == R.Copies(v, n);
    }
  }

  lemma {:induction false} RunsBack(cl: seq<nat>, items: seq<R.Item>, k: nat, fields: seq<Field>, rest: Input)
    requires |cl| == CL_CODES && Fits(cl) && R.Wellformed(items) && Coded(cl, items) && k <= |items|
    requires forall i :: 0 <= i < |R.Expand(items[..k])| ==> R.Expand(items[..k])[i] <= 15
    ensures ReadRuns(cl, R.Expand(items[..k]), |R.Expand(items)|, Sent(ItemsFields(cl, items[k..]) + fields, rest)) ==
            Read(R.Expand(items), Sent(fields, rest))
    decreases |items| - k
  {
    hide R.Expand, R.Adds, ItemFields, Sent;
    if k == |items| {
      assert items[..k] == items && ItemsFields(cl, items[k..]) + fields == fields;
      RunsEnd(cl, R.Expand(items), Sent(fields, rest));
    } else {
      var x, more := items[k], ItemsFields(cl, items[k + 1..]) + fields;
      R.ExpandGrows(items, k);
      R.ExpandNext(items, k);
      assert items[k..][1..] == items[k + 1..];
      assert ItemsFields(cl, items[k..]) + fields == ItemFields(cl, x) + more;
      ItemBack(cl, x, R.Expand(items[..k]), |R.Expand(items)|, more, rest);
      RunsBack(cl, items, k + 1, fields, rest);
    }
  }

  lemma RunsEnd(cl: seq<nat>, out: seq<nat>, input: Input)
    requires |cl| == CL_CODES && forall k :: 0 <= k < |out| ==> out[k] <= 15
    ensures ReadRuns(cl, out, |out|, input) == Read(out, input)
  {
  }

  // The header is read back as the code lengths it was made of.
  lemma HeaderReadsBack(h: Header, fields: seq<Field>, rest: Input)
    requires HeaderOk(h)
    ensures ReadCodes(Sent(HeaderFields(h) + fields, rest)) == Read(Codes(h.lit, h.dist), Sent(fields, rest))
  {
    hide Sent, ReadBits, ReadSizes, LengthFields, ItemsFields, Gate, NumLengths, R.Expand, R.Wellformed, Coded;
    var n := NumLengths(h.cl, CL_CODES);
    var more := LengthFields(h.cl, 0, n) + ItemsFields(h.cl, h.items) + fields;
    var a, b, c := Field(|h.lit| - 257, 5), Field(|h.dist| - 1, 5), Field(n - 4, 4);
    assert HeaderFields(h) + fields == [Field(2, 2)] + ([a] + ([b] + ([c] + more)));
    assert Pow2(2) == 4 && Pow2(5) == 32 && Pow2(4) == 16;
    BitsReadBack(Field(2, 2), [a] + ([b] + ([c] + more)), rest);
    BitsReadBack(a, [b] + ([c] + more), rest);
    BitsReadBack(b, [c] + more, rest);
    BitsReadBack(c, more, rest);
    SizesBack(h, fields, rest);
  }

  lemma SizesBack(h: Header, fields: seq<Field>, rest: Input)
    requires HeaderOk(h)
    ensures var n := NumLengths(h.cl, CL_CODES);
            var sent := LengthFields(h.cl, 0, n) + ItemsFields(h.cl, h.items) + fields;
            ReadSizes(|h.lit|, |h.dist|, n, Sent(sent, rest)) ==
            Read(Codes(h.lit, h.dist), Sent(fields, rest))
  {
    hide Sent, LengthFields, ItemsFields, Gate, NumLengths, Coded, ReadLengths, ReadRuns, Partly;
    hide R.Expand, R.Wellformed;
    var n, runs := NumLengths(h.cl, CL_CODES), ItemsFields(h.cl, h.items) + fields;
    assert LengthFields(h.cl, 0, n) + ItemsFields(h.cl, h.items) + fields == LengthFields(h.cl, 0, n) + runs;
    PartlyAll(h.cl);
    LengthsBack(h.cl, 0, n, runs, rest);
    GateFits(h.cl);
    NothingExpanded();
    assert h.items[..0] == [] && h.items[0..] == h.items;
    RunsBack(h.cl, h.items, 0, fields, rest);
    assert (h.lit + h.dist)[..|h.lit|] == h.lit && (h.lit + h.dist)[|h.lit|..] == h.dist;
  }

  lemma NothingExpanded()
    ensures R.Expand([]) == []
  {
  }

  lemma GateFits(sizes: seq<nat>)
    requires Lengths(sizes) && Gate(sizes)
    ensures Accepted(sizes) && Fits(sizes)
  {
    GateAccepts(sizes);
  }

  // A dynamic block, whatever its operations, is read back as those operations, and the bits behind it are left.
  lemma BlockReadsBack(h: Header, ops: seq<Op>, rest: Input, room: nat)
    requires HeaderOk(h) && AllSendable(h.lit, h.dist, ops) && Used(h.lit, END) && Produced(ops) <= room
    ensures ReadBlock(Sent(HeaderFields(h) + Body(h.lit, h.dist, ops), rest), room) == Read(ops, rest)
  {
    hide Sent, HeaderFields, Body, ReadOps, HeaderOk, ReadDynamic, Gate, ReadBits, ReadStored;
    HeaderReadsBack(h, Body(h.lit, h.dist, ops), rest);
    HeaderFits(h);
    OpsReadBack(h.lit, h.dist, ops, rest, room);
  }

  lemma HeaderFits(h: Header)
    requires HeaderOk(h)
    ensures Fits(h.lit) && Fits(h.dist)
  {
    forall k | 0 <= k < |h.lit| + |h.dist| ensures (h.lit + h.dist)[k] <= 15 {
      ExpandedLengths(h.items);
    }
    assert forall k :: 0 <= k < |h.lit| ==> h.lit[k] == (h.lit + h.dist)[k];
    assert forall k :: 0 <= k < |h.dist| ==> h.dist[k] == (h.lit + h.dist)[|h.lit| + k];
    GateFits(h.lit);
    GateFits(h.dist);
  }

  lemma {:induction false} ExpandedLengths(items: seq<R.Item>)
    requires R.Wellformed(items)
    ensures forall k :: 0 <= k < |R.Expand(items)| ==> R.Expand(items)[k] <= 15
  {
    if items != [] {
      var n := |items| - 1;
      assert forall k :: 0 <= k < n ==> items[..n][k] == items[k] && items[..n][..k] == items[..k];
      ExpandedLengths(items[..n]);
      assert R.ItemOk(items[n]);
    }
  }

  // ---------------------------------------------------------------- the fixed code

  lemma {:induction false} CountFront(a: seq<nat>, b: seq<nat>, k: nat, len: nat)
    requires k <= |a|
    ensures CountBelow(a + b, k, len) == CountBelow(a, k, len)
  {
    if k > 0 {
      CountFront(a, b, k - 1, len);
    }
  }

  lemma {:induction false} CountConcat(a: seq<nat>, b: seq<nat>, k: nat, len: nat)
    requires k <= |b|
    ensures CountBelow(a + b, |a| + k, len) == Count(a, len) + CountBelow(b, k, len)
  {
    if k == 0 {
      CountFront(a, b, |a|, len);
    } else {
      CountConcat(a, b, k - 1, len);
    }
  }

  lemma {:induction false} CountCopies(v: nat, n: nat, k: nat, len: nat)
    requires k <= n
    ensures CountBelow(R.Copies(v, n), k, len) == if v == len then k else 0
  {
    if k > 0 {
      CountCopies(v, n, k - 1, len);
    }
  }

  lemma StaticCounts(len: nat)
    ensures Count(STATIC_LIT, len) == if len == 7 then 24 else if len == 8 then 152 else if len == 9 then 112 else 0
    ensures Count(STATIC_DIST, len) == if len == 5 then 32 else 0
  {
    var a, b, c, d := R.Copies(8, 144), R.Copies(9, 112), R.Copies(7, 24), R.Copies(8, 8);
    CountCopies(8, 144, 144, len);
    CountCopies(9, 112, 112, len);
    CountCopies(7, 24, 24, len);
    CountCopies(8, 8, 8, len);
    CountConcat(a, b, |b|, len);
    CountConcat(a + b, c, |c|, len);
    CountConcat(a + b + c, d, |d|, len);
    CountCopies(5, 32, 32, len);
  }

  lemma {:induction false} StaticFirst(len: nat)
    requires 1 <= len <= 16
    ensures FirstCode(STATIC_LIT, len) == if len <= 7 then 0 else if len == 8 then 48 else if len == 9 then 400
                                          else Pow2(len)
    ensures FirstCode(STATIC_DIST, len) == if len <= 5 then 0 else Pow2(len)
  {
    assert Pow2(6) == 64 && Pow2(10) == 1024;
    hide STATIC_LIT, STATIC_DIST, Count;
    if len > 1 {
      StaticFirst(len - 1);
      StaticCounts(len - 1);
    }
  }

  // The fixed code uses up the code space, and all its symbols.
  lemma StaticComplete()
    ensures |STATIC_LIT| == 288 && |STATIC_DIST| == 32 && Complete(STATIC_LIT) && Complete(STATIC_DIST)
    ensures forall s: nat :: s < 288 ==> Used(STATIC_LIT, s)
    ensures forall s: nat :: s < 32 ==> Used(STATIC_DIST, s)
  {
    hide FirstCode;
    StaticFirst(16);
    Pow2Values();
  }

  lemma StaticSendable(ops: seq<Op>)
    requires AllOk(ops)
    ensures AllSendable(STATIC_LIT, STATIC_DIST, ops) && Used(STATIC_LIT, END)
  {
    hide FirstCode;
    StaticComplete();
    hide STATIC_LIT, STATIC_DIST, LenSym, DistSym;
  }

  // A block with the fixed code is read back, whatever its operations.
  lemma StaticReadsBack(ops: seq<Op>, rest: Input, room: nat)
    requires AllOk(ops) && Produced(ops) <= room
    ensures AllSendable(STATIC_LIT, STATIC_DIST, ops) && Used(STATIC_LIT, END)
    ensures ReadBlock(Sent([Field(1, 2)] + Body(STATIC_LIT, STATIC_DIST, ops), rest), room) == Read(ops, rest)
  {
    StaticSendable(ops);
    StaticComplete();
    hide Sent, Body, ReadOps, ReadBits, ReadStored, STATIC_LIT, STATIC_DIST, FirstCode;
    assert Pow2(2) == 4;
    BitsReadBack(Field(1, 2), Body(STATIC_LIT, STATIC_DIST, ops), rest);
    OpsReadBack(STATIC_LIT, STATIC_DIST, ops, rest, room);
  }
}
