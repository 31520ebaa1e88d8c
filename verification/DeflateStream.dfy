// Whole streams of blocks: any blocks, of all three kinds, are read back as all they stand for.
module DeflateStream {
  import opened Bits
  import opened BitStream
  import opened CanonicalCode
  import opened LzCodes
  import opened BlockFormat
  import opened BlockStored
  import opened BlockHeader
  import D = BlockReader
  import M = MatchCopy

  // ---------------------------------------------------------------- written

  // A block as it is sent: with codes of its own, with the fixed ones, or stored.
  datatype Sending =
    | Dynamic(last: bool, header: Header, ops: seq<Op>)
    | Static(last: bool, ops: seq<Op>)
    | Stored(last: bool, bytes: seq<Byte>, pad: nat)

  function OpsOf(b: Sending): seq<Op> {
    if b.Stored? then Literals(b.bytes) else b.ops
  }

  ghost predicate SendingOk(b: Sending) {
    match b
    case Dynamic(_, h, ops) => HeaderOk(h) && AllSendable(h.lit, h.dist, ops) && Used(h.lit, END)
    case Static(_, ops) => AllSendable(STATIC_LIT, STATIC_DIST, ops) && Used(STATIC_LIT, END) && AllOk(ops)
    case Stored(_, bytes, pad) => |bytes| <= MAX_STORED && pad < 8
  }

  ghost function SendingFields(b: Sending): seq<Field>
    requires SendingOk(b)
  {
    match b
    case Dynamic(_, h, ops) => HeaderFields(h) + Body(h.lit, h.dist, ops)
    case Static(_, ops) => [Field(1, 2)] + Body(STATIC_LIT, STATIC_DIST, ops)
    case Stored(_, bytes, pad) => StoredFields(bytes, pad)
  }

  function FinalBit(last: bool): (f: Field)
    ensures FieldOk(f) && f.len == 1
  {
    assert Pow2(1) == 2;
    Field(if last then 1 else 0, 1)
  }

  // The final bit, then the block.
  ghost function BlockFields(b: Sending): seq<Field>
    requires SendingOk(b)
  {
    [FinalBit(b.last)] + SendingFields(b)
  }

  ghost predicate AllSent(bs: seq<Sending>) {
    forall i :: 0 <= i < |bs| ==> SendingOk(bs[i])
  }

  ghost function StreamFields(bs: seq<Sending>): seq<Field>
    requires AllSent(bs)
  {
    if bs == [] then [] else BlockFields(bs[0]) + StreamFields(bs[1..])
  }

  function AllOps(bs: seq<Sending>): seq<Op> {
    if bs == [] then [] else OpsOf(bs[0]) + AllOps(bs[1..])
  }

  // A block that starts so many bits into the stream has its stored bytes at a byte boundary.
  ghost predicate StoredAt(b: Sending, start: nat) {
    b.Stored? ==> (start + 3 + b.pad) % 8 == 0
  }

  ghost predicate AlignedFrom(bs: seq<Sending>, start: nat)
    requires AllSent(bs)
    decreases |bs|
  {
    bs == [] || (StoredAt(bs[0], start) && AlignedFrom(bs[1..], start + Width(BlockFields(bs[0]))))
  }

  // The last block, and only the last, is marked so.
  predicate Closed(bs: seq<Sending>) {
    bs != [] && forall i :: 0 <= i < |bs| ==> (bs[i].last <==> i == |bs| - 1)
  }

  predicate Open(bs: seq<Sending>) {
    forall i :: 0 <= i < |bs| ==> !bs[i].last
  }

  // One more block.
  lemma {:induction false} StreamNext(bs: seq<Sending>, b: Sending, start: nat)
    requires AllSent(bs) && SendingOk(b)
    ensures AllSent(bs + [b]) && StreamFields(bs + [b]) == StreamFields(bs) + BlockFields(b)
    ensures AlignedFrom(bs + [b], start) <==> AlignedFrom(bs, start) && StoredAt(b, start + Width(StreamFields(bs)))
    ensures AllOps(bs + [b]) == AllOps(bs) + OpsOf(b)
    decreases |bs|
  {
    hide SendingOk, BlockFields, OpsOf, StoredAt;
    if bs == [] {
      assert bs + [b] == [b] && [b][1..] == [];
    } else {
      var at := start + Width(BlockFields(bs[0]));
      assert (bs + [b])[1..] == bs[1..] + [b];
      StreamNext(bs[1..], b, at);
      StreamConcat(BlockFields(bs[0]), StreamFields(bs[1..]), 0);
    }
  }

  // ---------------------------------------------------------------- read

  // Blocks up to the one marked final.
  ghost function ReadStream(input: Input, room: nat): Read<seq<Op>>
    decreases input.count
  {
    var last := ReadBits(1, input);
    if last.Failed? then Failed
    else
      var block := ReadBlock(last.rest, room);
      if block.Failed? then Failed
      else if last.value == 1 then block
      else D.After(block.value, ReadStream(block.rest, room - Produced(block.value)))
  }

  // The outer loop of the decompressor.
  method InflateStream(input: Input, room: nat) returns (r: Read<seq<Op>>)
    ensures r == ReadStream(input, room)
  {
    hide ReadStream, ReadBlock, ReadBits;
    var lits := new D.Table(LIT_SYMBOLS);
    var dists := new D.Table(DIST_SYMBOLS);
    var lengths := new D.Table(CL_CODES);
    var ops: seq<Op>, rest, left: nat := [], input, room;
    D.AfterNothing(ReadStream(input, room));
    while true
      invariant D.After(ops, ReadStream(rest, left)) == ReadStream(input, room)
      decreases rest.count
    {
      StreamStep(rest, left);
      var last := ReadBits(1, rest);
      if last.Failed? {
        return Failed;
      }
      var block := D.InflateBlock(lits, dists, lengths, last.rest, left);
      if block.Failed? {
        return Failed;
      }
      if last.value == 1 {
        return Read(ops + block.value, block.rest);
      }
      left := left - Produced(block.value);
      AfterMany(ops, block.value, ReadStream(block.rest, left));
      ops, rest := ops + block.value, block.rest;
    }
  }

  lemma StreamStep(input: Input, room: nat)
    ensures var last, all := ReadBits(1, input), ReadStream(input, room);
            && (last.Failed? ==> all == Failed)
            && (last.Read? ==>
                  var block := ReadBlock(last.rest, room);
                  && last.rest.count < input.count
                  && (block.Failed? ==> all == Failed)
                  && (block.Read? && last.value == 1 ==> all == block)
                  && (block.Read? && last.value != 1 ==>
                        all == D.After(block.value, ReadStream(block.rest, room - Produced(block.value)))))
  {
    hide ReadBlock;
  }

  lemma AfterMany(a: seq<Op>, b: seq<Op>, r: Read<seq<Op>>)
    ensures D.After(a, D.After(b, r)) == D.After(a + b, r)
  {
    if r.Read? {
      assert a + (b + r.value) == a + b + r.value;
    }
  }

  // ---------------------------------------------------------------- written and read back

  ghost predicate WholeBehind(b: Sending, rest: Input) {
    b.Stored? ==> rest.count % 8 == 0
  }

  lemma SendingBack(b: Sending, rest: Input, room: nat)
    requires SendingOk(b) && Produced(OpsOf(b)) <= room && WholeBehind(b, rest)
    ensures ReadBlock(Sent(SendingFields(b), rest), room) == Read(OpsOf(b), rest)
  {
    hide Sent, HeaderOk, HeaderFields, Body, AllSendable, Used, STATIC_LIT, STATIC_DIST, ReadBits, ReadStored;
    hide StoredFields, ReadCodes, ReadOps, Produced;
    match b
    case Dynamic(_, h, ops) => BlockReadsBack(h, ops, rest, room);
    case Static(_, ops) => StaticReadsBack(ops, rest, room);
    case Stored(_, bytes, pad) =>
      LiteralsProduced(bytes);
      StoredBack(bytes, pad, rest, room);
  }

  // If the whole stream leaves whole bytes behind it, so does each stored block.
  lemma BlockBehind(b: Sending, start: nat, more: seq<Field>, rest: Input)
    requires SendingOk(b) && StoredAt(b, start)
    requires b.Stored? ==> (start + Width(BlockFields(b)) + Width(more) + rest.count) % 8 == 0
    ensures WholeBehind(b, Sent(more, rest))
  {
    if b.Stored? {
      StoredWidth(b.bytes, b.pad);
      StreamHead(FinalBit(b.last), SendingFields(b), 0);
      hide Width, SendingFields, StoredFields;
      WholeArith(start, b.pad, |b.bytes|, Width(more) + rest.count);
    }
  }

  lemma WholeArith(start: nat, pad: nat, n: nat, count: nat)
    requires (start + 3 + pad) % 8 == 0 && (start + (35 + pad + 8 * n) + count) % 8 == 0
    ensures count % 8 == 0
  {
    assert start + (35 + pad + 8 * n) + count == (start + 3 + pad) + 8 * (4 + n) + count;
  }

  // Any blocks at all, one after the other, are read back as all their operations, and the bits behind the stream are
  // left. Stored blocks need the stream, wherever it starts, to end so that whole bytes follow.
  lemma {:induction false} StreamReadsBack(bs: seq<Sending>, start: nat, rest: Input, room: nat)
    requires Closed(bs) && AllSent(bs) && AlignedFrom(bs, start) && Produced(AllOps(bs)) <= room
    requires (exists i :: 0 <= i < |bs| && bs[i].Stored?) ==> (start + Width(StreamFields(bs)) + rest.count) % 8 == 0
    ensures ReadStream(Sent(StreamFields(bs), rest), room) == Read(AllOps(bs), rest)
    decreases |bs|
  {
    hide Sent, ReadStream, ReadBlock, ReadBits, SendingFields, SendingOk, Produced, OpsOf, StoredAt, WholeBehind, Width;
    var b, more := bs[0], StreamFields(bs[1..]);
    assert SendingOk(b) && bs[0].last == (|bs| == 1);
    assert StreamFields(bs) == [FinalBit(b.last)] + (SendingFields(b) + more);
    ProducedConcat(OpsOf(b), AllOps(bs[1..]));
    StreamConcat(BlockFields(b), more, 0);
    BlockBehind(b, start, more, rest);
    BitsReadBack(FinalBit(b.last), SendingFields(b) + more, rest);
    SentConcat(SendingFields(b), more, rest);
    SendingBack(b, Sent(more, rest), room);
    StreamStep(Sent(StreamFields(bs), rest), room);
    if |bs| == 1 {
      assert bs[1..] == [] && more == [];
      SentNothing(rest);
      assert AllOps(bs) == OpsOf(b) + [] == OpsOf(b);
    } else {
      assert forall i :: 0 <= i < |bs[1..]| ==> bs[1..][i] == bs[i + 1];
      StreamReadsBack(bs[1..], start + Width(BlockFields(b)), rest, room - Produced(OpsOf(b)));
    }
  }

  lemma SentConcat(a: seq<Field>, b: seq<Field>, rest: Input)
    ensures Sent(a + b, rest) == Sent(a, Sent(b, rest))
  {
    StreamConcat(a, b, rest.bits);
  }

  // ---------------------------------------------------------------- bytes

  // What the bytes of an output hold for the decompressor.
  function InputOf(bytes: seq<Byte>): Input {
    Input(Bytes(bytes, 0), 8 * |bytes|)
  }

  // The decompressor: the stream's operations, run into the output buffer.
  method Inflate(input: Input, out: array<Byte>) returns (ok: bool, produced: nat)
    modifies out
    ensures ok <==> ReadStream(input, out.Length).Read? && M.InReach(ReadStream(input, out.Length).value)
                    && |Expand(ReadStream(input, out.Length).value)| <= out.Length
    ensures ok ==> produced <= out.Length && out[..produced] == Expand(ReadStream(input, out.Length).value)
  {
    hide ReadStream, M.InReach, Expand;
    var r := InflateStream(input, out.Length);
    if r.Failed? {
      return false, 0;
    }
    var status;
    status, produced := M.RunOps(r.value, out);
    ok := status == M.Done;
  }
}
