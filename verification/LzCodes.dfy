// LZ77 operations, their meaning, and the flag-packed code buffer of libjade/miniz.c that holds them
// between the parser and the block writer.
module LzCodes {
  import opened Bits
  import opened BlockSymbols

  const MIN_MATCH := 3
  const MAX_MATCH := 258
  const DICT_SIZE := 32768
  const CODE_BUF_SIZE := 65536
  const LIT_SYMBOLS := 288
  const DIST_SYMBOLS := 32

  datatype Op = Literal(lit: Byte) | Match(dist: nat, len: nat)

  predicate OpOk(op: Op) {
    op.Match? ==> 1 <= op.dist <= DICT_SIZE && MIN_MATCH <= op.len <= MAX_MATCH
  }

  // Copy byte by byte from `dist` back; the source may run into bytes just written.
  function CopyMatch(out: seq<Byte>, dist: nat, len: nat): (r: seq<Byte>)
    requires 1 <= dist <= |out|
    ensures |r| == |out| + len && out <= r
  {
    if len == 0 then out
    else
      var most := CopyMatch(out, dist, len - 1);
      most + [most[|most| - dist]]
  }

  // Every match reaches back only to bytes already produced.
  ghost predicate Sound(ops: seq<Op>) {
    ops == [] ||
    var last := |ops| - 1;
    Sound(ops[..last]) && OpOk(ops[last]) && (ops[last].Match? ==> ops[last].dist <= |Expand(ops[..last])|)
  }

  function Apply(out: seq<Byte>, op: Op): seq<Byte> {
    if op.Literal? then out + [op.lit]
    else if 1 <= op.dist <= |out| then CopyMatch(out, op.dist, op.len)
    else out
  }

  // The bytes a list of operations stands for.
  ghost function Expand(ops: seq<Op>): seq<Byte>
    decreases |ops|
  {
    if ops == [] then []
    else
      Apply(Expand(ops[..|ops| - 1]), ops[|ops| - 1])
  }

  lemma ExpandAppend(ops: seq<Op>, op: Op)
    ensures Expand(ops + [op]) == Apply(Expand(ops), op)
    ensures Sound(ops) && OpOk(op) && (op.Match? ==> op.dist <= |Expand(ops)|) ==> Sound(ops + [op])
  {
    assert (ops + [op])[..|ops|] == ops;
  }

  // `len` bytes of `input` at `pos` repeat those `dist` back.
  ghost predicate Repeats(input: seq<Byte>, pos: nat, dist: nat, len: nat) {
    && 1 <= dist <= pos && pos + len <= |input|
    && forall k :: pos <= k < pos + len ==> input[k] == input[k - dist]
  }

  // Copying a true repetition reproduces the input.
  lemma {:induction false} CopyIsInput(input: seq<Byte>, pos: nat, dist: nat, len: nat)
    requires Repeats(input, pos, dist, len)
    ensures CopyMatch(input[..pos], dist, len) == input[..pos + len]
  {
    if len > 0 {
      CopyIsInput(input, pos, dist, len - 1);
      assert input[pos + len - 1] == input[pos + len - 1 - dist];
    }
  }

  // ---------------------------------------------------------------- how many bytes

  // How many bytes operations stand for.
  function Produced(ops: seq<Op>): nat {
    if ops == [] then 0 else (if ops[0].Literal? then 1 else ops[0].len) + Produced(ops[1..])
  }

  lemma {:induction false} ProducedConcat(a: seq<Op>, b: seq<Op>)
    ensures Produced(a + b) == Produced(a) + Produced(b)
  {
    if a == [] {
      assert a + b == b;
    } else {
      assert (a + b)[1..] == a[1..] + b;
      ProducedConcat(a[1..], b);
    }
  }

  lemma {:induction false} ProducedIsLength(ops: seq<Op>)
    requires Sound(ops)
    ensures Produced(ops) == |Expand(ops)|
  {
    if ops != [] {
      var n := |ops| - 1;
      ProducedIsLength(ops[..n]);
      ProducedConcat(ops[..n], [ops[n]]);
      assert ops[..n] + [ops[n]] == ops && [ops[n]][1..] == [];
    }
  }

  lemma {:induction false} ProducedBound(ops: seq<Op>)
    requires AllOk(ops)
    ensures Produced(ops) <= MAX_MATCH * |ops|
  {
    if ops != [] {
      ProducedBound(ops[1..]);
    }
  }

  lemma ProducedAppend(ops: seq<Op>, op: Op)
    ensures Produced(ops + [op]) == Produced(ops) + (if op.Literal? then 1 else op.len)
  {
    ProducedConcat(ops, [op]);
    assert [op][1..] == [];
  }

  // ---------------------------------------------------------------- the packed form

  function Payload(op: Op): (s: seq<Byte>)
    requires OpOk(op)
  {
    match op
    case Literal(b) => [b]
    case Match(dist, len) => [len - MIN_MATCH, (dist - 1) % 256, (dist - 1) / 256]
  }

  ghost predicate AllOk(ops: seq<Op>) {
    forall i :: 0 <= i < |ops| ==> OpOk(ops[i])
  }

  function Payloads(ops: seq<Op>): seq<Byte>
    requires AllOk(ops)
  {
    if ops == [] then [] else Payload(ops[0]) + Payloads(ops[1..])
  }

  // Bit i says whether operation i is a match.
  function FlagBits(ops: seq<Op>): nat {
    if ops == [] then 0 else (if ops[0].Match? then 1 else 0) + 2 * FlagBits(ops[1..])
  }

  lemma {:induction false} FlagBitsBound(ops: seq<Op>)
    ensures FlagBits(ops) < Pow2(|ops|)
  {
    if ops != [] {
      FlagBitsBound(ops[1..]);
    }
  }

  // Groups of up to eight operations behind one flag byte each.
  function Packed(ops: seq<Op>): seq<Byte>
    requires AllOk(ops)
    decreases |ops|
  {
    if ops == [] then []
    else
      var k := if |ops| < 8 then |ops| else 8;
      FlagBitsBound(ops[..k]);
      Pow2Monotone(k, 8);
      assert Pow2(8) == 256;
      [FlagBits(ops[..k])] + Payloads(ops[..k]) + Packed(ops[k..])
  }

  lemma {:induction false} FlagBitsAppend(ops: seq<Op>, op: Op)
    ensures FlagBits(ops + [op]) == FlagBits(ops) + (if op.Match? then Pow2(|ops|) else 0)
  {
    if ops == [] {
      assert ops + [op] == [op];
    } else {
      FlagBitsAppend(ops[1..], op);
      assert (ops + [op])[1..] == ops[1..] + [op];
    }
  }

  lemma {:induction false} PayloadsAppend(ops: seq<Op>, op: Op)
    requires AllOk(ops) && OpOk(op)
    ensures Payloads(ops + [op]) == Payloads(ops) + Payload(op)
  {
    if ops == [] {
      assert ops + [op] == [op];
    } else {
      PayloadsAppend(ops[1..], op);
      assert (ops + [op])[1..] == ops[1..] + [op];
    }
  }

  lemma GroupFlags(group: seq<Op>)
    requires |group| <= 8
    ensures FlagBits(group) < 256
  {
    FlagBitsBound(group);
    Pow2Monotone(|group|, 8);
    assert Pow2(8) == 256;
  }

  lemma {:induction false} PackedAppendGroup(full: seq<Op>, group: seq<Op>)
    requires AllOk(full) && AllOk(group) && |full| % 8 == 0 && 0 < |group| <= 8
    ensures FlagBits(group) < 256
    ensures Packed(full + group) == Packed(full) + [FlagBits(group)] + Payloads(group)
    decreases |full|
  {
    hide FlagBits, Payloads, OpOk;
    GroupFlags(group);
    if full == [] {
      assert full + group == group;
      assert group[..|group|] == group && group[|group|..] == [];
    } else {
      PackedAppendGroup(full[8..], group);
      assert (full + group)[..8] == full[..8];
      assert (full + group)[8..] == full[8..] + group;
    }
  }

  // The flag byte as it is shifted in from the top while a group fills.
  function Shifted(part: seq<Op>): (f: nat)
    ensures f < 256
  {
    if part == [] then 0
    else Shifted(part[..|part| - 1]) / 2 + (if part[|part| - 1].Match? then 128 else 0)
  }

  // Once shifted down by the unused places it is the group's flag byte.
  lemma {:induction false} ShiftedDown(part: seq<Op>)
    requires |part| <= 8
    ensures Shifted(part) == FlagBits(part) * Pow2(8 - |part|)
  {
    if part != [] {
      var k := |part| - 1;
      var rest := part[..k];
      ShiftedDown(rest);
      assert Shifted(part) == Shifted(rest) / 2 + (if part[k].Match? then 128 else 0);
      hide Shifted, FlagBits;
      FlagBitsAppend(rest, part[k]);
      assert part == rest + [part[k]];
      Pow2Product(k, 7 - k);
      ShiftArith(FlagBits(rest), Pow2(7 - k), Pow2(k), part[k].Match?);
    }
  }

  lemma ShiftArith(f: nat, p: nat, q: nat, isMatch: bool)
    requires q * p == 128
    ensures f * (2 * p) / 2 + (if isMatch then 128 else 0) == (f + (if isMatch then q else 0)) * p
  {
    assert f * (2 * p) == 2 * (f * p);
    assert (f + q) * p == f * p + q * p;
  }

  lemma {:induction false} Pow2Product(a: nat, b: nat)
    requires a + b == 7
    ensures Pow2(a) * Pow2(b) == 128
  {
    if a == 0 {
      Pow2Values();
    } else {
      Pow2Product(a - 1, b + 1);
      assert (2 * Pow2(a - 1)) * Pow2(b) == Pow2(a - 1) * (2 * Pow2(b));
    }
  }

  lemma {:induction false} ShrProduct(x: nat, n: nat)
    ensures Shr(x * Pow2(n), n) == x
  {
    if n > 0 {
      ShrProduct(x, n - 1);
      assert x * Pow2(n) == 2 * (x * Pow2(n - 1));
    }
  }

  lemma {:induction false} ShrSmaller(x: nat, n: nat)
    ensures Shr(x, n) <= x
  {
    if n > 0 {
      ShrSmaller(x / 2, n - 1);
    }
  }

  // ---------------------------------------------------------------- symbol counts

  // The literal or length symbol an operation is sent with.
  function LitSym(op: Op): (s: nat)
    requires OpOk(op)
    ensures s < 286 && s != 256
  {
    if op.Literal? then op.lit else LenSym(op.len - MIN_MATCH)
  }

  // How often each literal or length symbol is needed.
  ghost function LitCounts(ops: seq<Op>): (c: seq<nat>)
    requires AllOk(ops)
    ensures |c| == LIT_SYMBOLS
  {
    if ops == [] then seq(LIT_SYMBOLS, _ => 0)
    else
      var c, s := LitCounts(ops[..|ops| - 1]), LitSym(ops[|ops| - 1]);
      c[s := c[s] + 1]
  }

  // And each distance symbol.
  ghost function DistCounts(ops: seq<Op>): (c: seq<nat>)
    requires AllOk(ops)
    ensures |c| == DIST_SYMBOLS
  {
    if ops == [] then seq(DIST_SYMBOLS, _ => 0)
    else
      var c, op := DistCounts(ops[..|ops| - 1]), ops[|ops| - 1];
      if op.Literal? then c else c[DistSym(op.dist - 1) := c[DistSym(op.dist - 1)] + 1]
  }

  lemma CountsAppend(ops: seq<Op>, op: Op)
    requires AllOk(ops) && OpOk(op)
    ensures AllOk(ops + [op])
    ensures var c := LitCounts(ops); LitCounts(ops + [op]) == c[LitSym(op) := c[LitSym(op)] + 1]
    ensures var c := DistCounts(ops);
            DistCounts(ops + [op]) ==
            if op.Literal? then c else c[DistSym(op.dist - 1) := c[DistSym(op.dist - 1)] + 1]
  {
    assert (ops + [op])[..|ops|] == ops;
  }

  // ---------------------------------------------------------------- the buffer

  // Complete groups, then the open group's flag byte in its shifted form and its payloads.
  ghost predicate Layout(data: seq<Byte>, full: seq<Op>, part: seq<Op>, flagsAt: nat) {
    && AllOk(full) && AllOk(part) && |full| % 8 == 0 && |part| < 8
    && flagsAt == |Packed(full)|
    && data == Packed(full) + [Shifted(part)] + Payloads(part)
  }

  class CodeBuffer {
    const bytes: array<Byte>
    var ofs: nat        // m_pLZ_code_buf, as an offset
    var flagsAt: nat    // m_pLZ_flags, as an offset
    var flagsLeft: nat  // m_num_flags_left
    var total: nat      // m_total_lz_bytes
    var litCounts: seq<nat>     // m_huff_count[0]
    var distCounts: seq<nat>    // m_huff_count[1]
    ghost var full: seq<Op>
    ghost var part: seq<Op>

    ghost predicate Valid()
      reads this, bytes
    {
      Laid() && AllOk(Ops()) && Counted(Ops()) && total == Produced(Ops())
    }

    ghost predicate Counted(ops: seq<Op>)
      requires AllOk(ops)
      reads this`litCounts, this`distCounts
    {
      litCounts == LitCounts(ops) && distCounts == DistCounts(ops)
    }

    ghost predicate Laid()
      reads this, bytes
    {
      && bytes.Length == CODE_BUF_SIZE && ofs <= CODE_BUF_SIZE
      && flagsLeft == 8 - |part|
      && Layout(bytes[..ofs], full, part, flagsAt)
    }

    // Everything recorded since the last block.
    ghost function Ops(): seq<Op>
      reads this
    {
      full + part
    }

    constructor ()
      ensures Valid() && Ops() == [] && fresh(bytes) && ofs == 1 && total == 0
    {
      bytes := new Byte[CODE_BUF_SIZE](_ => 0);
      ofs, flagsAt, flagsLeft, total := 1, 0, 8, 0;
      litCounts, distCounts := seq(LIT_SYMBOLS, _ => 0), seq(DIST_SYMBOLS, _ => 0);
      full, part := [], [];
      new;
      assert bytes[..1] == [0];
    }

    method RecordLiteral(lit: Byte)
      requires Valid() && ofs + 2 <= CODE_BUF_SIZE
      modifies this, bytes
      ensures Valid() && Ops() == old(Ops()) + [Literal(lit)]
      ensures old(ofs) < ofs <= old(ofs) + 2 && total == old(total) + 1
    {
      hide LitCounts, DistCounts, Produced;
      ghost var was := bytes[..ofs];
      total := total + 1;
      bytes[ofs] := lit;
      ofs := ofs + 1;
      bytes[flagsAt] := bytes[flagsAt] / 2;
      AddToGroup(was, full, part, flagsAt, Literal(lit), bytes[..ofs]);
      CloseGroup(Literal(lit));
      CountSymbols(old(Ops()), Literal(lit));
      ProducedAppend(old(Ops()), Literal(lit));
    }

    method RecordMatch(len: nat, dist: nat)
      requires Valid() && ofs + 4 <= CODE_BUF_SIZE && OpOk(Match(dist, len))
      modifies this, bytes
      ensures Valid() && Ops() == old(Ops()) + [Match(dist, len)]
      ensures old(ofs) < ofs <= old(ofs) + 4 && total == old(total) + len
    {
      hide LitCounts, DistCounts, Packed, Payloads, Shifted, Produced;
      total := total + len;
      PutMatch(len, dist);
      CloseGroup(Match(dist, len));
      CountSymbols(old(Ops()), Match(dist, len));
      ProducedAppend(old(Ops()), Match(dist, len));
    }

    // Three bytes, and a set flag.
    method PutMatch(len: nat, dist: nat)
      requires Laid() && ofs + 4 <= CODE_BUF_SIZE && OpOk(Match(dist, len))
      modifies this`ofs, bytes
      ensures ofs == old(ofs) + 3 && GroupData(bytes[..ofs], full, part + [Match(dist, len)], flagsAt)
    {
      ghost var was := bytes[..ofs];
      bytes[ofs] := len - MIN_MATCH;
      bytes[ofs + 1] := (dist - 1) % 256;
      bytes[ofs + 2] := (dist - 1) / 256;
      ofs := ofs + 3;
      bytes[flagsAt] := bytes[flagsAt] / 2 + 128;
      AddToGroup(was, full, part, flagsAt, Match(dist, len), bytes[..ofs]);
    }

    // One more use of the operation's symbols.
    method CountSymbols(ghost ops: seq<Op>, op: Op)
      requires AllOk(ops) && OpOk(op) && Counted(ops)
      modifies this`litCounts, this`distCounts
      ensures AllOk(ops + [op]) && Counted(ops + [op])
    {
      CountsAppend(ops, op);
      hide LitCounts, DistCounts;
      if op.Match? {
        var sym := DistSym(op.dist - 1);
        distCounts := distCounts[sym := distCounts[sym] + 1];
      }
      litCounts := litCounts[LitSym(op) := litCounts[LitSym(op)] + 1];
    }

    // Count the operation and start a new flag byte after every eighth.
    method CloseGroup(ghost op: Op)
      requires bytes.Length == CODE_BUF_SIZE && ofs + 1 <= CODE_BUF_SIZE && OpOk(op)
      requires flagsLeft == 8 - |part| && |part| < 8
      requires GroupData(bytes[..ofs], full, part + [op], flagsAt)
      modifies this`ofs, this`flagsAt, this`flagsLeft, this`full, this`part, bytes
      ensures Laid() && Ops() == old(Ops()) + [op] && old(ofs) <= ofs <= old(ofs) + 1
    {
      hide Packed, Payloads, Shifted;
      part := part + [op];
      flagsLeft := flagsLeft - 1;
      if flagsLeft == 0 {
        ghost var was := bytes[..ofs];
        flagsLeft := 8;
        flagsAt := ofs;
        ofs := ofs + 1;
        bytes[flagsAt] := 0;
        assert bytes[..ofs] == was + [0];
        GroupDone(was, full, part, old(flagsAt));
        FreshGroup(was, full + part);
        full, part := full + part, [];
      }
    }

    // Finish the block: align the open flag byte, or drop it if its group is empty.
    method Finish() returns (data: seq<Byte>)
      requires Valid()
      modifies this`ofs, bytes
      ensures AllOk(Ops()) && data == Packed(Ops()) && |data| <= CODE_BUF_SIZE && Counted(Ops())
      ensures Ops() == old(Ops()) && total == Produced(Ops()) && bytes.Length == CODE_BUF_SIZE
    {
      hide LitCounts, DistCounts;
      ghost var was := bytes[..ofs];
      ShrSmaller(bytes[flagsAt], flagsLeft);
      bytes[flagsAt] := Shr(bytes[flagsAt], flagsLeft);
      ofs := ofs - (if flagsLeft == 8 then 1 else 0);
      data := bytes[..ofs];
      Aligned(was, full, part, flagsAt, data);
    }

    // Start the next block.
    method Reset()
      requires bytes.Length == CODE_BUF_SIZE
      modifies this, bytes
      ensures Valid() && Ops() == [] && ofs == 1 && total == 0
    {
      ofs, flagsAt, flagsLeft, total := 1, 0, 8, 0;
      litCounts, distCounts := seq(LIT_SYMBOLS, _ => 0), seq(DIST_SYMBOLS, _ => 0);
      bytes[0] := 0;
      full, part := [], [];
      assert bytes[..1] == [0];
    }
  }

  ghost predicate GroupData(data: seq<Byte>, full: seq<Op>, part: seq<Op>, flagsAt: nat) {
    && AllOk(full) && AllOk(part) && |full| % 8 == 0 && |part| <= 8
    && flagsAt == |Packed(full)|
    && data == Packed(full) + [Shifted(part)] + Payloads(part)
  }

  lemma AddToGroup(was: seq<Byte>, full: seq<Op>, part: seq<Op>, flagsAt: nat, op: Op, now: seq<Byte>)
    requires Layout(was, full, part, flagsAt) && OpOk(op)
    requires |now| == |was| + |Payload(op)| && now[|was|..] == Payload(op)
    requires forall i :: 0 <= i < |was| && i != flagsAt ==> now[i] == was[i]
    requires now[flagsAt] == was[flagsAt] / 2 + (if op.Match? then 128 else 0)
    ensures GroupData(now, full, part + [op], flagsAt)
  {
    hide Packed, Payloads;
    PayloadsAppend(part, op);
    assert (part + [op])[..|part|] == part;
    assert Shifted(part + [op]) == now[flagsAt];
    assert now == was[..flagsAt] + [now[flagsAt]] + was[flagsAt + 1..] + Payload(op);
  }

  lemma FreshGroup(data: seq<Byte>, full: seq<Op>)
    requires AllOk(full) && |full| % 8 == 0 && data == Packed(full)
    ensures Layout(data + [0], full, [], |data|)
  {
  }

  lemma GroupDone(data: seq<Byte>, full: seq<Op>, part: seq<Op>, flagsAt: nat)
    requires |part| == 8 && GroupData(data, full, part, flagsAt)
    ensures AllOk(full + part) && data == Packed(full + part)
  {
    hide Packed, Payloads, Shifted, FlagBits;
    ShiftedDown(part);
    assert Pow2(0) == 1;
    PackedAppendGroup(full, part);
  }

  lemma Aligned(was: seq<Byte>, full: seq<Op>, part: seq<Op>, flagsAt: nat, data: seq<Byte>)
    requires Layout(was, full, part, flagsAt)
    requires |data| == |was| - (if part == [] then 1 else 0)
    requires forall i :: 0 <= i < |data| && i != flagsAt ==> data[i] == was[i]
    requires part != [] ==> data[flagsAt] == Shr(was[flagsAt], 8 - |part|)
    ensures AllOk(full + part) && data == Packed(full + part)
  {
    hide Packed, Shifted, FlagBits, Shr;
    if part == [] {
      assert full + part == full;
      assert data == Packed(full);
    } else {
      ShiftedDown(part);
      ShrProduct(FlagBits(part), 8 - |part|);
      PackedAppendGroup(full, part);
      assert data == Packed(full) + [data[flagsAt]] + Payloads(part);
    }
  }

  // ---------------------------------------------------------------- reading the codes back

  // What is left to read with `flags` in hand: the rest of a group, then whole groups.
  ghost predicate Reading(data: seq<Byte>, at: nat, flags: nat, rest: seq<Op>, used: nat) {
    && AllOk(rest) && at <= |data| && used <= 8
    && var m := if |rest| < 8 - used then |rest| else 8 - used;
       && flags == FlagBits(rest[..m]) + Pow2(8 - used)
       && data[at..] == Payloads(rest[..m]) + Packed(rest[m..])
  }

  // An operation's payload says what it is.
  lemma PayloadBytes(data: seq<Byte>, at: nat, op: Op)
    requires OpOk(op) && at + |Payload(op)| <= |data| && data[at..at + |Payload(op)|] == Payload(op)
    ensures op.Literal? ==> |Payload(op)| == 1 && data[at] == op.lit
    ensures op.Match? ==> |Payload(op)| == 3 && data[at] as int + MIN_MATCH == op.len &&
                          1 + data[at + 1] as int + 256 * data[at + 2] as int == op.dist
  {
    var p := Payload(op);
    assert data[at] == p[0];
    if op.Match? {
      assert data[at + 1] == p[1] && data[at + 2] == p[2];
    }
  }

  lemma ReadingStarts(data: seq<Byte>, want: seq<Op>)
    requires AllOk(want) && data == Packed(want)
    ensures Reading(data, 0, 1, want, 8)
  {
    assert want[0..] == want && data[0..] == data;
    assert want[..0] == [];
  }

  lemma PackedHead(ops: seq<Op>)
    requires AllOk(ops) && ops != []
    ensures var k := if |ops| < 8 then |ops| else 8;
            FlagBits(ops[..k]) < 256 && Packed(ops) == [FlagBits(ops[..k])] + (Payloads(ops[..k]) + Packed(ops[k..]))
  {
    hide FlagBits, Payloads, OpOk;
    GroupFlags(ops[..if |ops| < 8 then |ops| else 8]);
  }

  lemma PowerFacts()
    ensures Pow2(8) == 256 && Pow2(0) == 1
  {
  }

  // A bare sentinel means the whole group has been read.
  lemma GroupUsedUp(rest: seq<Op>, flags: nat, used: nat)
    requires used <= 8 && flags == 1
    requires var m := if |rest| < 8 - used then |rest| else 8 - used; flags == FlagBits(rest[..m]) + Pow2(8 - used)
    ensures used == 8
  {
    hide FlagBits;
  }

  lemma NewGroup(data: seq<Byte>, at: nat, flags: nat, rest: seq<Op>, used: nat)
    requires Reading(data, at, flags, rest, used) && at < |data| && flags == 1
    ensures rest != [] && Reading(data, at + 1, 256 + data[at] as int, rest, 0)
  {
    GroupUsedUp(rest, flags, used);
    PackedHead(rest);
    PowerFacts();
    hide FlagBits, Payloads, Packed, Pow2, OpOk;
    assert rest[..0] == [] && rest[0..] == rest;
    NoPayload();
    assert data[at..] == Packed(rest);
    assert data[at + 1..] == data[at..][1..];
  }

  lemma NoPayload()
    ensures Payloads([]) == []
  {
  }

  lemma MidGroup(data: seq<Byte>, at: nat, flags: nat, rest: seq<Op>, used: nat)
    requires Reading(data, at, flags, rest, used) && at < |data| && flags != 1
    ensures used < 8
  {
    assert rest[..0] == [];
  }

  lemma NextOp(data: seq<Byte>, at: nat, flags: nat, rest: seq<Op>, used: nat)
    requires Reading(data, at, flags, rest, used) && used < 8 && (rest != [] || at < |data|)
    ensures rest != [] && OpOk(rest[0]) && flags % 2 == (if rest[0].Match? then 1 else 0)
    ensures at + |Payload(rest[0])| <= |data| && data[at..at + |Payload(rest[0])|] == Payload(rest[0])
    ensures Reading(data, at + |Payload(rest[0])|, flags / 2, rest[1..], used + 1)
  {
    NothingLeft(data, at, flags, rest, used);
    hide Payloads, Packed, FlagBits, Pow2;
    var m := if |rest| < 8 - used then |rest| else 8 - used;
    assert rest[..m][1..] == rest[1..][..m - 1] && rest[m..] == rest[1..][m - 1..];
    FirstOfGroup(data, at, flags, rest[..m], Packed(rest[m..]), 8 - used);
  }

  lemma FirstOfGroup(data: seq<Byte>, at: nat, flags: nat, group: seq<Op>, tail: seq<Byte>, places: nat)
    requires group != [] && AllOk(group) && places >= 1 && at <= |data|
    requires flags == FlagBits(group) + Pow2(places) && data[at..] == Payloads(group) + tail
    ensures flags % 2 == (if group[0].Match? then 1 else 0)
    ensures var n := |Payload(group[0])|;
            at + n <= |data| && data[at..at + n] == Payload(group[0]) && data[at + n..] == Payloads(group[1..]) + tail
    ensures flags / 2 == FlagBits(group[1..]) + Pow2(places - 1)
  {
    SplitPayload(group);
    SplitFlags(group, places);
    hide Payloads, FlagBits, Pow2;
    TakeFront(data, at, Payload(group[0]), Payloads(group[1..]) + tail);
  }

  lemma NothingLeft(data: seq<Byte>, at: nat, flags: nat, rest: seq<Op>, used: nat)
    requires Reading(data, at, flags, rest, used)
    ensures rest == [] ==> at == |data|
  {
    if rest == [] {
      assert data[at..] == [];
    }
  }

  lemma SplitPayload(ops: seq<Op>)
    requires ops != [] && AllOk(ops)
    ensures Payloads(ops) == Payload(ops[0]) + Payloads(ops[1..])
  {
  }

  lemma SplitFlags(ops: seq<Op>, places: nat)
    requires ops != [] && places >= 1
    ensures (FlagBits(ops) + Pow2(places)) % 2 == (if ops[0].Match? then 1 else 0)
    ensures (FlagBits(ops) + Pow2(places)) / 2 == FlagBits(ops[1..]) + Pow2(places - 1)
  {
  }

  lemma TakeFront(data: seq<Byte>, at: nat, front: seq<Byte>, tail: seq<Byte>)
    requires at <= |data| && data[at..] == front + tail
    ensures at + |front| <= |data| && data[at..at + |front|] == front && data[at + |front|..] == tail
  {
    assert |data[at..]| == |data| - at;
    assert data[at..at + |front|] == data[at..][..|front|];
    assert data[at + |front|..] == data[at..][|front|..];
  }

  lemma {:induction false} PackedNonEmpty(ops: seq<Op>)
    requires AllOk(ops)
    ensures |Payloads(ops)| >= |ops| && (ops != [] ==> Packed(ops) != [])
  {
    if ops != [] {
      PackedNonEmpty(ops[1..]);
    }
  }

  lemma ReadingEnds(data: seq<Byte>, flags: nat, rest: seq<Op>, used: nat)
    requires Reading(data, |data|, flags, rest, used)
    ensures rest == []
  {
    var m := if |rest| < 8 - used then |rest| else 8 - used;
    assert |data[|data|..]| == 0;
    PackedNonEmpty(rest[..m]);
    PackedNonEmpty(rest[m..]);
  }
}
