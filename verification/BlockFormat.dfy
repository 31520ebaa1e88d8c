// A dynamic block of DEFLATE (section 3.2.7 of RFC 1951) as fields of bits and as the decoder reads it back:
// what libjade/miniz.c writes for any operations, it reads as those operations.
module BlockFormat {
  import opened Bits
  import opened BitStream
  import opened CanonicalCode
  import opened InflateLookup
  import opened BlockSymbols
  import opened LzCodes

  const END := 256    // the end-of-block symbol
  const CL_CODES := 19

  // ---------------------------------------------------------------- input

  // Bits still to be read, and how many there are.
  datatype Input = Input(bits: nat, count: nat)

  datatype Read<T> = Read(value: T, rest: Input) | Failed

  function Skip(input: Input, n: nat): Input
    requires n <= input.count
  {
    Input(Shr(input.bits, n), input.count - n)
  }

  // TINFL_GET_BITS
  function ReadBits(n: nat, input: Input): (r: Read<nat>)
    ensures r.Read? ==> r.value < Pow2(n) && r.rest.count == input.count - n
  {
    if n > input.count then Failed else Read(Low(input.bits, n), Skip(input, n))
  }

  // TINFL_HUFF_DECODE; an entry of length 0 is taken once 15 bits are in the buffer.
  ghost function ReadSymbol(sizes: seq<nat>, input: Input): (r: Read<nat>)
    requires sizes != []
    ensures r.Read? ==> r.value < |sizes| && r.rest.count <= input.count
    ensures r.Read? && r.value > 0 ==> r.rest.count < input.count
  {
    var (sym, len) := Decoded(sizes, input.bits);
    if len > input.count || (len == 0 && input.count < 15) then Failed else Read(sym, Skip(input, len))
  }

  // The input that holds these fields and what is behind them.
  function Sent(fields: seq<Field>, rest: Input): Input {
    Input(Stream(fields, rest.bits), Width(fields) + rest.count)
  }

  lemma BitsReadBack(f: Field, fields: seq<Field>, rest: Input)
    requires FieldOk(f)
    ensures ReadBits(f.len, Sent([f] + fields, rest)) == Read(f.value, Sent(fields, rest))
  {
    StreamHead(f, fields, rest.bits);
    FollowedReads(f.value, Stream(fields, rest.bits), f.len);
  }

  // A symbol's code as it is sent.
  function SymbolField(sizes: seq<nat>, s: nat): (f: Field)
    requires Used(sizes, s)
    ensures FieldOk(f)
  {
    Field(Wire(sizes, s), sizes[s])
  }

  // Encoder and decoder undo each other: whatever bits follow a symbol's code, that symbol is read.
  lemma SymbolReadsBack(sizes: seq<nat>, s: nat, fields: seq<Field>, rest: Input)
    requires Fits(sizes) && Used(sizes, s)
    ensures ReadSymbol(sizes, Sent([SymbolField(sizes, s)] + fields, rest)) == Read(s, Sent(fields, rest))
    ensures PlainDecode(sizes, Sent([SymbolField(sizes, s)] + fields, rest).bits, 1) == (s, sizes[s])
  {
    hide PlainDecode, Decoded;
    var f := SymbolField(sizes, s);
    StreamHead(f, fields, rest.bits);
    FollowedReads(f.value, Stream(fields, rest.bits), f.len);
    DecodedIs(sizes, Sent([f] + fields, rest).bits);
    assert Starts(sizes, s, Sent([f] + fields, rest).bits);
  }

  // ---------------------------------------------------------------- operations

  ghost predicate Sendable(lit: seq<nat>, dist: seq<nat>, op: Op) {
    OpOk(op) &&
    match op
    case Literal(b) => Used(lit, b)
    case Match(d, l) => Used(lit, LenSym(l - MIN_MATCH)) && Used(dist, DistSym(d - 1))
  }

  ghost predicate AllSendable(lit: seq<nat>, dist: seq<nat>, ops: seq<Op>) {
    forall i :: 0 <= i < |ops| ==> Sendable(lit, dist, ops[i])
  }

  // The low bits of a value as a field.
  function LowField(x: nat, n: nat): (f: Field)
    ensures FieldOk(f)
  {
    Field(Low(x, n), n)
  }

  ghost function OpFields(lit: seq<nat>, dist: seq<nat>, op: Op): seq<Field>
    requires Sendable(lit, dist, op)
  {
    match op
    case Literal(b) => [SymbolField(lit, b)]
    case Match(d, l) =>
      var m := l - MIN_MATCH;
      [SymbolField(lit, LenSym(m)), LowField(m, LenExtra(m)),
       SymbolField(dist, DistSym(d - 1)), LowField(d - 1, DistExtra(d - 1))]
  }

  ghost function OpsFields(lit: seq<nat>, dist: seq<nat>, ops: seq<Op>): seq<Field>
    requires AllSendable(lit, dist, ops)
  {
    if ops == [] then [] else OpFields(lit, dist, ops[0]) + OpsFields(lit, dist, ops[1..])
  }

  // All operations and the end of the block.
  ghost function Body(lit: seq<nat>, dist: seq<nat>, ops: seq<Op>): seq<Field>
    requires AllSendable(lit, dist, ops) && Used(lit, END)
  {
    OpsFields(lit, dist, ops) + [SymbolField(lit, END)]
  }

  lemma {:induction false} OpsFieldsAppend(lit: seq<nat>, dist: seq<nat>, ops: seq<Op>, op: Op)
    requires AllSendable(lit, dist, ops) && Sendable(lit, dist, op)
    ensures AllSendable(lit, dist, ops + [op])
    ensures OpsFields(lit, dist, ops + [op]) == OpsFields(lit, dist, ops) + OpFields(lit, dist, op)
  {
    hide OpFields, Sendable;
    if ops == [] {
      assert ops + [op] == [op] && [op][1..] == [];
      assert OpFields(lit, dist, op) + [] == OpFields(lit, dist, op);
    } else {
      assert (ops + [op])[1..] == ops[1..] + [op];
      OpsFieldsAppend(lit, dist, ops[1..], op);
    }
  }

  // ---------------------------------------------------------------- reading operations

  // Table lookups past a length or distance symbol, and the extra bits.
  ghost function ReadLength(sym: nat, input: Input): (r: Read<nat>)
    requires 257 <= sym < LIT_SYMBOLS
    ensures r.Read? ==> r.rest.count <= input.count
  {
    TableSizes();
    var extra := ReadBits(LENGTH_EXTRA[sym - 257], input);
    if extra.Failed? then Failed else Read(LENGTH_BASE[sym - 257] + extra.value, extra.rest)
  }

  ghost function ReadDistance(dist: seq<nat>, input: Input): (r: Read<nat>)
    requires 0 < |dist| <= DIST_SYMBOLS
    ensures r.Read? ==> r.rest.count <= input.count
  {
    TableSizes();
    var sym := ReadSymbol(dist, input);
    if sym.Failed? then Failed
    else
      var extra := ReadBits(DIST_EXTRA[sym.value], sym.rest);
      if extra.Failed? then Failed else Read(DIST_BASE[sym.value] + extra.value, extra.rest)
  }

  ghost function ReadMatch(sym: nat, dist: seq<nat>, input: Input): (r: Read<Op>)
    requires 257 <= sym < LIT_SYMBOLS && 0 < |dist| <= DIST_SYMBOLS
    ensures r.Read? ==> r.rest.count <= input.count && r.value.Match?
  {
    var len := ReadLength(sym, input);
    if len.Failed? then Failed
    else
      var d := ReadDistance(dist, len.rest);
      if d.Failed? then Failed else Read(Match(d.value, len.value), d.rest)
  }

  predicate Tabled(lit: seq<nat>, dist: seq<nat>) {
    257 <= |lit| <= LIT_SYMBOLS && 0 < |dist| <= DIST_SYMBOLS
  }

  // Operations up to the end of the block, with room for so many literals and matched bytes.
  ghost function ReadOps(lit: seq<nat>, dist: seq<nat>, input: Input, room: nat): (r: Read<seq<Op>>)
    requires Tabled(lit, dist)
    ensures r.Read? ==> r.rest.count <= input.count && Produced(r.value) <= room
    decreases input.count + room, room
  {
    var sym := ReadSymbol(lit, input);
    if sym.Failed? then Failed
    else if sym.value == END then Read([], sym.rest)
    else if sym.value < END then
      if room == 0 then Failed
      else
        var more := ReadOps(lit, dist, sym.rest, room - 1);
        if more.Failed? then Failed else Read([Literal(sym.value)] + more.value, more.rest)
    else
      var m := ReadMatch(sym.value, dist, sym.rest);
      if m.Failed? || m.value.len > room then Failed
      else
        var more := ReadOps(lit, dist, m.rest, room - m.value.len);
        if more.Failed? then Failed else Read([m.value] + more.value, more.rest)
  }

  // ---------------------------------------------------------------- operations read back

  lemma LengthBack(m: nat, fields: seq<Field>, rest: Input)
    requires m < 256
    ensures ReadLength(LenSym(m), Sent([LowField(m, LenExtra(m))] + fields, rest)) == Read(m + 3, Sent(fields, rest))
  {
    hide LENGTH_BASE, LENGTH_EXTRA, LenSym, LenExtra;
    LengthReadsBack(m);
    BitsReadBack(LowField(m, LenExtra(m)), fields, rest);
  }

  lemma DistanceBack(dist: seq<nat>, d: nat, fields: seq<Field>, rest: Input)
    requires d < 32768 && Fits(dist) && 0 < |dist| <= DIST_SYMBOLS && Used(dist, DistSym(d))
    ensures var sent := [SymbolField(dist, DistSym(d)), LowField(d, DistExtra(d))] + fields;
            ReadDistance(dist, Sent(sent, rest)) == Read(d + 1, Sent(fields, rest))
  {
    hide DIST_BASE, DIST_EXTRA, DistSym, DistExtra, ReadSymbol;
    DistanceReadsBack(d);
    var f, x := SymbolField(dist, DistSym(d)), LowField(d, DistExtra(d));
    assert [f, x] + fields == [f] + ([x] + fields);
    SymbolReadsBack(dist, DistSym(d), [x] + fields, rest);
    BitsReadBack(x, fields, rest);
  }

  lemma MatchBack(lit: seq<nat>, dist: seq<nat>, op: Op, fields: seq<Field>, rest: Input)
    requires Tabled(lit, dist) && Fits(lit) && Fits(dist) && Sendable(lit, dist, op) && op.Match?
    ensures var sym := ReadSymbol(lit, Sent(OpFields(lit, dist, op) + fields, rest));
            && sym.Read? && 257 <= sym.value < LIT_SYMBOLS
            && ReadMatch(sym.value, dist, sym.rest) == Read(op, Sent(fields, rest))
  {
    hide LenSym, LenExtra, DistSym, DistExtra, ReadSymbol, ReadLength, ReadDistance;
    var m, d := op.len - MIN_MATCH, op.dist - 1;
    var sym, extra := SymbolField(lit, LenSym(m)), LowField(m, LenExtra(m));
    var far := [SymbolField(dist, DistSym(d)), LowField(d, DistExtra(d))] + fields;
    assert OpFields(lit, dist, op) + fields == [sym] + ([extra] + far);
    SymbolReadsBack(lit, LenSym(m), [extra] + far, rest);
    LengthBack(m, far, rest);
    DistanceBack(dist, d, fields, rest);
  }

  // Whatever operations are sent with two fitting codes, they are read back, and the bits behind them are left.
  lemma {:induction false} OpsReadBack(lit: seq<nat>, dist: seq<nat>, ops: seq<Op>, rest: Input, room: nat)
    requires Tabled(lit, dist) && Fits(lit) && Fits(dist)
    requires AllSendable(lit, dist, ops) && Used(lit, END) && Produced(ops) <= room
    ensures ReadOps(lit, dist, Sent(Body(lit, dist, ops), rest), room) == Read(ops, rest)
    decreases |ops|
  {
    hide ReadSymbol, ReadMatch, OpFields, Sendable, Sent;
    var end := [SymbolField(lit, END)];
    if ops == [] {
      SentNothing(rest);
      SymbolReadsBack(lit, END, [], rest);
      assert Body(lit, dist, ops) == end + [];
    } else {
      var op, more := ops[0], OpsFields(lit, dist, ops[1..]) + end;
      assert Sendable(lit, dist, op);
      assert Body(lit, dist, ops) == OpFields(lit, dist, op) + more;
      OpsReadBack(lit, dist, ops[1..], rest, room - (if op.Literal? then 1 else op.len));
      if op.Literal? {
        LiteralBack(lit, dist, op, more, rest);
      } else {
        MatchBack(lit, dist, op, more, rest);
      }
      assert [op] + ops[1..] == ops;
    }
  }

  lemma SentNothing(rest: Input)
    ensures Sent([], rest) == rest
  {
  }

  lemma LiteralBack(lit: seq<nat>, dist: seq<nat>, op: Op, fields: seq<Field>, rest: Input)
    requires Fits(lit) && Sendable(lit, dist, op) && op.Literal?
    ensures ReadSymbol(lit, Sent(OpFields(lit, dist, op) + fields, rest)) == Read(op.lit, Sent(fields, rest))
  {
    hide ReadSymbol;
    SymbolReadsBack(lit, op.lit, fields, rest);
  }
}
