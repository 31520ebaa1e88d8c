// The block decoder of tinfl_decompress() (libjade/miniz.c) with its tables: on any input at all it reads what
// BlockFormat and BlockHeader say is there, or fails where they do.
module BlockReader {
  import opened Bits
  import opened BitStream
  import opened CanonicalCode
  import opened InflateTables
  import opened InflateSymbols
  import opened InflateLookup
  import opened BlockSymbols
  import opened LzCodes
  import opened BlockFormat
  import opened BlockStored
  import opened BlockHeader
  import R = CodeLengthRle

  // One code's lookup and tree, built for some sizes.
  class Table {
    const lookup: array<int>
    const tree: array<int>
    ghost var sizes: seq<nat>
    ghost var slots: seq<Node>

    ghost predicate Built(sizes: seq<nat>)
      reads this, lookup, tree
    {
      && this.sizes == sizes && Fits(sizes) && 0 < |sizes| <= 512
      && Tables(sizes, |sizes|, lookup[..], tree[..], slots)
    }

    constructor (symbols: nat)
      ensures fresh(lookup) && fresh(tree) && lookup.Length == FAST_SIZE && lookup != tree
      ensures tree.Length == 2 * symbols + 10
    {
      lookup := new int[FAST_SIZE](_ => 0);
      tree := new int[2 * symbols + 10](_ => 0);
    }

    // Build for new sizes, if they pass the size test.
    method Build(sizes: seq<nat>) returns (ok: bool)
      requires Lengths(sizes) && 0 < |sizes| <= 512
      requires lookup.Length == FAST_SIZE && lookup != tree && tree.Length >= 2 * |sizes| && tree.Length >= 10
      modifies this, lookup, tree
      ensures ok <==> Gate(sizes)
      ensures ok ==> Built(sizes)
    {
      hide Tables;
      ok, slots := BuildTables(sizes, lookup, tree);
      this.sizes := sizes;
      if ok {
        GateFits(sizes);
      }
    }

    // TINFL_HUFF_DECODE
    method Next(ghost sizes: seq<nat>, input: Input) returns (r: Read<nat>)
      requires Built(sizes)
      ensures r == ReadSymbol(sizes, input)
    {
      hide Tables, Decoded;
      var sym, len := HuffDecode(sizes, lookup, tree, slots, input.bits);
      if len > input.count || (len == 0 && input.count < 15) {
        return Failed;
      }
      return Read(sym, Skip(input, len));
    }
  }

  // ---------------------------------------------------------------- code lengths

  // The lengths of the code for lengths, three bits each.
  method InflateLengths(n: nat, input: Input) returns (r: Read<seq<nat>>)
    requires n <= CL_CODES
    ensures r == ReadLengths(0, n, R.Copies(0, CL_CODES), input)
  {
    hide ReadLengths, SWIZZLE;
    SwizzleSizes();
    var cl: seq<nat>, rest := R.Copies(0, CL_CODES), input;
    for i := 0 to n
      invariant |cl| == CL_CODES && forall k :: 0 <= k < CL_CODES ==> cl[k] < 8
      invariant ReadLengths(i, n, cl, rest) == ReadLengths(0, n, R.Copies(0, CL_CODES), input)
    {
      LengthsStep(i, n, cl, rest);
      var s := ReadBits(3, rest);
      if s.Failed? {
        return Failed;
      }
      ThreeBits();
      cl, rest := cl[SWIZZLE[i] := s.value], s.rest;
    }
    LengthsStep(n, n, cl, rest);
    return Read(cl, rest);
  }

  lemma LengthsStep(i: nat, n: nat, cl: seq<nat>, input: Input)
    requires |cl| == CL_CODES && i <= n <= CL_CODES && forall k :: 0 <= k < CL_CODES ==> cl[k] < 8
    ensures |SWIZZLE| == CL_CODES && (i < n ==> SWIZZLE[i] < CL_CODES)
    ensures i == n ==> ReadLengths(i, n, cl, input) == Read(cl, input)
    ensures i < n && ReadBits(3, input).Failed? ==> ReadLengths(i, n, cl, input) == Failed
    ensures i < n && ReadBits(3, input).Read? ==>
              var s := ReadBits(3, input);
              s.value < 8 && ReadLengths(i, n, cl, input) == ReadLengths(i + 1, n, cl[SWIZZLE[i] := s.value], s.rest)
  {
    SwizzleSizes();
    ThreeBits();
  }

  // The loop that expands the runs as they are read.
  method InflateRuns(table: Table, ghost cl: seq<nat>, total: nat, input: Input) returns (r: Read<seq<nat>>)
    requires table.Built(cl) && |cl| == CL_CODES
    ensures r == ReadRuns(cl, [], total, input)
  {
    hide Table.Built, ReadSymbol, ReadRuns, ReadBits;
    var lenCodes, rest := [], input;
    while |lenCodes| < total
      invariant forall k :: 0 <= k < |lenCodes| ==> lenCodes[k] <= 15
      invariant ReadRuns(cl, lenCodes, total, rest) == ReadRuns(cl, [], total, input)
      decreases total - |lenCodes|
    {
      RunsStep(cl, lenCodes, total, rest);
      var sym := table.Next(cl, rest);
      if sym.Failed? || (sym.value == 16 && lenCodes == []) {
        return Failed;
      }
      if sym.value < 16 {
        lenCodes, rest := lenCodes + [sym.value], sym.rest;
        continue;
      }
      var extra := ReadBits(ExtraBits(sym.value), sym.rest);
      if extra.Failed? {
        return Failed;
      }
      var s := extra.value + (if sym.value == 18 then 11 else 3);
      lenCodes := lenCodes + R.Copies(if sym.value == 16 then lenCodes[|lenCodes| - 1] else 0, s);
      rest := extra.rest;
    }
    RunsStop(cl, lenCodes, total, rest);
    if |lenCodes| != total {
      return Failed;
    }
    return Read(lenCodes, rest);
  }

  lemma RunsStop(cl: seq<nat>, out: seq<nat>, total: nat, input: Input)
    requires |cl| == CL_CODES && |out| >= total && forall k :: 0 <= k < |out| ==> out[k] <= 15
    ensures ReadRuns(cl, out, total, input) == if |out| == total then Read(out, input) else Failed
  {
  }

  lemma RunsStep(cl: seq<nat>, out: seq<nat>, total: nat, input: Input)
    requires |cl| == CL_CODES && |out| < total && forall k :: 0 <= k < |out| ==> out[k] <= 15
    ensures var sym := ReadSymbol(cl, input);
            && (sym.Failed? || (sym.value == 16 && out == []) ==> ReadRuns(cl, out, total, input) == Failed)
            && (sym.Read? && sym.value < 16 ==>
                  ReadRuns(cl, out, total, input) == ReadRuns(cl, out + [sym.value], total, sym.rest))
            && (sym.Read? && sym.value >= 16 && !(sym.value == 16 && out == []) ==>
                  var extra := ReadBits(ExtraBits(sym.value), sym.rest);
                  && (extra.Failed? ==> ReadRuns(cl, out, total, input) == Failed)
                  && (extra.Read? ==>
                        var v := if sym.value == 16 then out[|out| - 1] else 0;
                        var more := out + R.Copies(v, extra.value + (if sym.value == 18 then 11 else 3));
                        ReadRuns(cl, out, total, input) == ReadRuns(cl, more, total, extra.rest)))
  {
    hide ReadSymbol, ReadBits;
  }

  // ---------------------------------------------------------------- the operations

  method InflateMatch(sym: nat, distTable: Table, ghost dist: seq<nat>, input: Input) returns (r: Read<Op>)
    requires 257 <= sym < LIT_SYMBOLS && distTable.Built(dist) && |dist| <= DIST_SYMBOLS
    ensures r == ReadMatch(sym, dist, input)
  {
    hide Table.Built, ReadSymbol, LENGTH_BASE, LENGTH_EXTRA, DIST_BASE, DIST_EXTRA;
    TableSizes();
    var extra := ReadBits(LENGTH_EXTRA[sym - 257], input);
    if extra.Failed? {
      return Failed;
    }
    var counter := LENGTH_BASE[sym - 257] + extra.value;
    var d := distTable.Next(dist, extra.rest);
    if d.Failed? {
      return Failed;
    }
    var far := ReadBits(DIST_EXTRA[d.value], d.rest);
    if far.Failed? {
      return Failed;
    }
    return Read(Match(DIST_BASE[d.value] + far.value, counter), far.rest);
  }

  // What has been read, in front of what is still to come.
  function After(ops: seq<Op>, r: Read<seq<Op>>): Read<seq<Op>> {
    if r.Failed? then Failed else Read(ops + r.value, r.rest)
  }

  // The main loop, symbol by symbol to the end of the block.
  method InflateOps(litTable: Table, ghost lit: seq<nat>, distTable: Table, ghost dist: seq<nat>, input: Input,
                    room: nat)
    returns (r: Read<seq<Op>>)
    requires litTable.Built(lit) && distTable.Built(dist) && Tabled(lit, dist)
    ensures r == ReadOps(lit, dist, input, room)
  {
    hide Table.Built, ReadSymbol, ReadMatch, ReadOps;
    var ops: seq<Op>, rest, left: nat := [], input, room;
    AfterNothing(ReadOps(lit, dist, input, room));
    while true
      invariant After(ops, ReadOps(lit, dist, rest, left)) == ReadOps(lit, dist, input, room)
      decreases rest.count + left, left
    {
      OpsStep(lit, dist, rest, left);
      var counter := litTable.Next(lit, rest);
      if counter.Failed? {
        return Failed;
      }
      if counter.value == END {
        assert ops + [] == ops;
        return Read(ops, counter.rest);
      }
      var op: Op;
      ghost var before := ops;
      if counter.value < END {
        if left == 0 {
          return Failed;
        }
        op, rest, left := Literal(counter.value), counter.rest, left - 1;
      } else {
        var m := InflateMatch(counter.value, distTable, dist, counter.rest);
        if m.Failed? || m.value.len > left {
          return Failed;
        }
        op, rest, left := m.value, m.rest, left - m.value.len;
      }
      AfterOne(ops, op, ReadOps(lit, dist, rest, left));
      ops := ops + [op];
    }
  }

  lemma AfterNothing(r: Read<seq<Op>>)
    ensures After([], r) == r
  {
    if r.Read? {
      assert [] + r.value == r.value;
    }
  }

  lemma AfterOne(ops: seq<Op>, op: Op, r: Read<seq<Op>>)
    ensures After(ops, After([op], r)) == After(ops + [op], r)
  {
    if r.Read? {
      assert ops + ([op] + r.value) == ops + [op] + r.value;
    }
  }

  lemma OpsStep(lit: seq<nat>, dist: seq<nat>, input: Input, room: nat)
    requires Tabled(lit, dist)
    ensures var sym, all := ReadSymbol(lit, input), ReadOps(lit, dist, input, room);
            && (sym.Failed? ==> all == Failed)
            && (sym.Read? && sym.value == END ==> all == Read([], sym.rest))
            && (sym.Read? && sym.value < END ==>
                  all == if room == 0 then Failed
                         else After([Literal(sym.value)], ReadOps(lit, dist, sym.rest, room - 1)))
            && (sym.Read? && sym.value > END ==>
                  var m := ReadMatch(sym.value, dist, sym.rest);
                  all == if m.Failed? || m.value.len > room then Failed
                         else After([m.value], ReadOps(lit, dist, m.rest, room - m.value.len)))
  {
    hide ReadSymbol, ReadMatch;
  }

  // ---------------------------------------------------------------- a block

  // The three tables, apart from each other and large enough.
  ghost predicate Ready(lits: Table, dists: Table, lengths: Table) {
    && lits != dists && lits != lengths && dists != lengths
    && lits.lookup != dists.lookup && lits.lookup != dists.tree && lits.tree != dists.lookup && lits.tree != dists.tree
    && lits.lookup != lits.tree && dists.lookup != dists.tree && lengths.lookup != lengths.tree
    && lits.lookup.Length == dists.lookup.Length == lengths.lookup.Length == FAST_SIZE
    && lits.tree.Length >= 2 * LIT_SYMBOLS && dists.tree.Length >= 2 * DIST_SYMBOLS
    && lengths.tree.Length >= 2 * CL_CODES
  }

  // The dynamic header behind the block's type.
  method InflateDynamic(lits: Table, dists: Table, lengths: Table, input: Input) returns (r: Read<Codes>)
    requires Ready(lits, dists, lengths)
    modifies lits, lits.lookup, lits.tree, dists, dists.lookup, dists.tree, lengths, lengths.lookup, lengths.tree
    ensures r == ReadDynamic(input)
    ensures r.Read? ==> lits.Built(r.value.lit) && dists.Built(r.value.dist)
  {
    hide ReadBits, Gate, Table.Built, Ready, ReadSizes;
    assert Pow2(5) == 32 && Pow2(4) == 16;
    var a := ReadBits(5, input);
    if a.Failed? {
      return Failed;
    }
    var b := ReadBits(5, a.rest);
    if b.Failed? {
      return Failed;
    }
    var c := ReadBits(4, b.rest);
    if c.Failed? {
      return Failed;
    }
    r := InflateSizes(lits, dists, lengths, a.value + 257, b.value + 1, c.value + 4, c.rest);
  }

  method InflateSizes(lits: Table, dists: Table, lengths: Table, numLit: nat, numDist: nat, n: nat, input: Input)
    returns (r: Read<Codes>)
    requires Ready(lits, dists, lengths)
    requires 257 <= numLit <= LIT_SYMBOLS && 1 <= numDist <= DIST_SYMBOLS && 4 <= n <= CL_CODES
    modifies lits, lits.lookup, lits.tree, dists, dists.lookup, dists.tree, lengths, lengths.lookup, lengths.tree
    ensures r == ReadSizes(numLit, numDist, n, input)
    ensures r.Read? ==> lits.Built(r.value.lit) && dists.Built(r.value.dist)
  {
    hide ReadLengths, ReadRuns, ReadBits, Gate, Tables;
    var cl := InflateLengths(n, input);
    if cl.Failed? {
      return Failed;
    }
    var ok := lengths.Build(cl.value);
    if !ok {
      return Failed;
    }
    var all := InflateRuns(lengths, cl.value, numLit + numDist, cl.rest);
    if all.Failed? {
      return Failed;
    }
    var lit, dist := all.value[..numLit], all.value[numLit..];
    ok := BuildBoth(lits, dists, lengths, lit, dist);
    if !ok {
      return Failed;
    }
    return Read(Codes(lit, dist), all.rest);
  }

  // The distance table first, then the other.
  method BuildBoth(lits: Table, dists: Table, ghost lengths: Table, lit: seq<nat>, dist: seq<nat>) returns (ok: bool)
    requires Ready(lits, dists, lengths) && Tabled(lit, dist) && Lengths(lit) && Lengths(dist)
    modifies lits, lits.lookup, lits.tree, dists, dists.lookup, dists.tree
    ensures ok <==> Gate(lit) && Gate(dist)
    ensures ok ==> lits.Built(lit) && dists.Built(dist)
  {
    hide Tables, Gate;
    ok := dists.Build(dist);
    if ok {
      ok := lits.Build(lit);
    }
  }

  // ---------------------------------------------------------------- a stored block

  // Two of the four header bytes.
  method HeaderWord(input: Input) returns (r: Read<nat>)
    ensures r == ReadBits(16, input)
  {
    hide ReadBits;
    TwoBytes(input);
    var low := ReadBits(8, input);
    if low.Failed? {
      return Failed;
    }
    var high := ReadBits(8, low.rest);
    if high.Failed? {
      return Failed;
    }
    return Read(low.value + 256 * high.value, high.rest);
  }

  lemma TwoBytes(input: Input)
    ensures var low := ReadBits(8, input);
            && (low.Failed? ==> ReadBits(16, input) == Failed)
            && (low.Read? ==>
                  var high := ReadBits(8, low.rest);
                  ReadBits(16, input) ==
                  if high.Failed? then Failed else Read(low.value + 256 * high.value, high.rest))
  {
    ShrShr(input.bits, 8, 8);
    LowTwice(input.bits, 8, 8);
    EightBits();
    hide Low, Shr, Pow2;
  }

  lemma EightBits()
    ensures Pow2(8) == 256
  {
  }

  lemma {:induction false} LowTwice(x: nat, a: nat, b: nat)
    ensures Low(x, a + b) == Low(x, a) + Pow2(a) * Low(Shr(x, a), b)
  {
    if a > 0 {
      LowTwice(x / 2, a - 1, b);
      Regroup(2, Pow2(a - 1), Low(Shr(x, a), b));
    }
  }

  // To the byte boundary, length and complement, then the bytes one by one.
  method InflateStored(input: Input, room: nat) returns (r: Read<seq<Op>>)
    ensures r == ReadStored(input, room)
  {
    hide ReadBits, ReadBytes;
    var len := HeaderWord(Skip(input, input.count % 8));
    if len.Failed? {
      return Failed;
    }
    var complement := HeaderWord(len.rest);
    if complement.Failed? || len.value != MAX_STORED - complement.value || len.value > room {
      return Failed;
    }
    var ops, rest := [], complement.rest;
    AfterNothing(ReadBytes(len.value, rest));
    for i := 0 to len.value
      invariant After(ops, ReadBytes(len.value - i, rest)) == ReadBytes(len.value, complement.rest)
    {
      BytesStep(len.value - i, rest);
      var b := ReadBits(8, rest);
      if b.Failed? {
        return Failed;
      }
      AfterOne(ops, Literal(b.value), ReadBytes(len.value - i - 1, b.rest));
      ops, rest := ops + [Literal(b.value)], b.rest;
    }
    BytesStep(0, rest);
    assert ops + [] == ops;
    return Read(ops, rest);
  }

  lemma BytesStep(n: nat, input: Input)
    ensures n == 0 ==> ReadBytes(n, input) == Read([], input)
    ensures n > 0 && ReadBits(8, input).Failed? ==> ReadBytes(n, input) == Failed
    ensures n > 0 && ReadBits(8, input).Read? ==>
              var b := ReadBits(8, input);
              b.value < 256 && ReadBytes(n, input) == After([Literal(b.value)], ReadBytes(n - 1, b.rest))
  {
    EightBits();
  }

  // One block: its codes, the tables for them, its operations.
  method InflateBlock(lits: Table, dists: Table, lengths: Table, input: Input, room: nat) returns (r: Read<seq<Op>>)
    requires Ready(lits, dists, lengths)
    modifies lits, lits.lookup, lits.tree, dists, dists.lookup, dists.tree, lengths, lengths.lookup, lengths.tree
    ensures r == ReadBlock(input, room)
  {
    hide ReadDynamic, ReadOps, ReadBits, ReadStored, Gate, Table.Built, STATIC_LIT, STATIC_DIST, Ready;
    var kind := ReadBits(2, input);
    if kind.Failed? || kind.value == 3 {
      return Failed;
    }
    if kind.value == 0 {
      r := InflateStored(kind.rest, room);
      return;
    }
    var codes;
    if kind.value == 1 {
      StaticGate();
      codes := Read(Codes(STATIC_LIT, STATIC_DIST), kind.rest);
      var ok := BuildBoth(lits, dists, lengths, STATIC_LIT, STATIC_DIST);
    } else {
      codes := InflateDynamic(lits, dists, lengths, kind.rest);
      if codes.Failed? {
        return Failed;
      }
    }
    r := InflateOps(lits, codes.value.lit, dists, codes.value.dist, codes.rest, room);
  }

  lemma StaticGate()
    ensures Lengths(STATIC_LIT) && Lengths(STATIC_DIST) && Gate(STATIC_LIT) && Gate(STATIC_DIST)
    ensures Tabled(STATIC_LIT, STATIC_DIST)
  {
    StaticComplete();
  }
}
