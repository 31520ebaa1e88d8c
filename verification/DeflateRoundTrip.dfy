// Compressing and inflating undo each other (libjade/miniz.c): the bytes a finished compressor has handed over, however
// they were split across calls, are inflated to exactly the input it was given.
module DeflateRoundTrip {
  import opened Bits
  import opened BitStream
  import opened LzCodes
  import opened BlockFormat
  import opened BlockStored
  import opened BlockHeader
  import opened DeflateStream
  import opened BlockSender
  import opened BlockOutlet
  import opened LzParser
  import M = MatchCopy

  // All the bytes handed over so far.
  ghost function Output(c: Compressor): seq<Byte>
    reads c, c.outlet
  {
    c.outlet.given + c.outlet.output
  }

  // In any state a compressor can reach, once it says it is done.
  lemma InflateUndoesCompress(c: Compressor, room: nat)
    requires c.Valid() && c.status == Done && |c.input| <= room
    ensures var r := ReadStream(InputOf(Output(c)), room);
            && r.Read? && M.InReach(r.value) && Expand(r.value) == c.input && r.rest.count < 8
            && Produced(r.value) == |c.input|
  {
    hide Expand, Sound, M.InReach, ReadStream, CodeBuffer.Valid, StreamFields, AlignedFrom, SendingOk;
    var o := c.outlet;
    FinishedOut(c);
    StreamRead(o, Output(c), room);
    M.SoundInReach(AllOps(o.sent));
    ProducedIsLength(AllOps(o.sent));
  }

  // What a writer holds behind a closed stream.
  lemma StreamRead(o: Outlet, bytes: seq<Byte>, room: nat)
    requires o.Valid() && !o.broken && Closed(o.sent) && o.pending == [] && bytes == o.given + o.output
    requires o.w.bitsIn == 0 && Sound(AllOps(o.sent)) && |Expand(AllOps(o.sent))| <= room
    ensures ReadStream(InputOf(bytes), room) == Read(AllOps(o.sent), Input(0, o.pad)) && o.pad < 8
  {
    hide Expand, Sound, ReadStream, StreamFields, AlignedFrom, SendingOk;
    assert bytes + [] == bytes && bytes + o.w.out[..0] == bytes;
    ProducedIsLength(AllOps(o.sent));
    WholeInput(bytes, o.w.buffer, StreamFields(o.sent), o.pad);
    StreamReadsBack(o.sent, 0, Input(0, o.pad), room);
  }

  lemma WholeInput(bytes: seq<Byte>, buffer: nat, fields: seq<Field>, pad: nat)
    requires Holding(bytes, buffer, 0, fields + PadFields(pad))
    ensures InputOf(bytes) == Sent(fields, Input(0, pad)) && (Width(fields) + pad) % 8 == 0
  {
    hide Bytes, Stream, Width, PadFields, Followed;
    PadFacts(pad);
    ZeroFollowed(pad);
    StreamConcat(fields, PadFields(pad), 0);
    OneBit();
  }

  lemma OneBit()
    ensures Pow2(0) == 1
  {
  }

  // ---------------------------------------------------------------- more room changes nothing

  lemma {:induction false} OpsRoom(lit: seq<nat>, dist: seq<nat>, input: Input, room: nat, more: nat)
    requires Tabled(lit, dist) && room <= more && ReadOps(lit, dist, input, room).Read?
    ensures ReadOps(lit, dist, input, more) == ReadOps(lit, dist, input, room)
    decreases input.count + room, room
  {
    hide ReadSymbol, ReadMatch;
    var sym := ReadSymbol(lit, input);
    if sym.value < END {
      OpsRoom(lit, dist, sym.rest, room - 1, more - 1);
    } else if sym.value > END {
      var m := ReadMatch(sym.value, dist, sym.rest);
      OpsRoom(lit, dist, m.rest, room - m.value.len, more - m.value.len);
    }
  }

  lemma BlockRoom(input: Input, room: nat, more: nat)
    requires room <= more && ReadBlock(input, room).Read?
    ensures ReadBlock(input, more) == ReadBlock(input, room)
  {
    hide ReadBits, ReadCodes, ReadOps, ReadBytes;
    var kind := ReadBits(2, input);
    if !(kind.Read? && kind.value == 0) {
      var codes := ReadCodes(input);
      OpsRoom(codes.value.lit, codes.value.dist, codes.rest, room, more);
    }
  }

  lemma {:induction false} StreamRoom(input: Input, room: nat, more: nat)
    requires room <= more && ReadStream(input, room).Read?
    ensures ReadStream(input, more) == ReadStream(input, room) && Produced(ReadStream(input, room).value) <= room
    decreases input.count
  {
    hide ReadStream, ReadBits, ReadBlock;
    StreamStep(input, room);
    StreamStep(input, more);
    var last := ReadBits(1, input);
    BlockRoom(last.rest, room, more);
    var block := ReadBlock(last.rest, room);
    if last.value != 1 {
      var used := Produced(block.value);
      StreamRoom(block.rest, room - used, more - used);
      ProducedConcat(block.value, ReadStream(block.rest, room - used).value);
    }
  }

  // A buffer that is too small is never enough.
  lemma TooSmall(c: Compressor, room: nat)
    requires c.Valid() && c.status == Done && room < |c.input|
    ensures ReadStream(InputOf(Output(c)), room).Failed?
  {
    hide Compressor.Valid, Expand, Sound, ReadStream, M.InReach, AllOps;
    InflateUndoesCompress(c, |c.input|);
    if ReadStream(InputOf(Output(c)), room).Read? {
      StreamRoom(InputOf(Output(c)), room, |c.input|);
    }
  }

  // ---------------------------------------------------------------- from data to data

  // A new compressor, one finishing call, and the decompressor.
  method RoundTrip(flags: nat, greedy: bool, rleOnly: bool, filter: bool, rawOnly: bool, fixedOnly: bool,
                   data: seq<Byte>, outSize: nat, out: array<Byte>)
    returns (r: Status, compressed: seq<Byte>, ok: bool, produced: nat)
    modifies out
    ensures |compressed| <= outSize && (r == Done || r == Okay || r == Aborted) && (fixedOnly ==> r != Aborted)
    ensures r == Okay ==> |compressed| == outSize
    ensures r == Done ==> forall room :: |data| <= room ==>
                            var s := ReadStream(InputOf(compressed), room); s.Read? && Expand(s.value) == data
    ensures ok <==> r == Done && |data| <= out.Length
    ensures ok ==> produced <= out.Length && out[..produced] == data
  {
    hide Compressor.Valid, M.InReach, Expand, ReadStream;
    ok, produced := false, 0;
    var c := new Compressor(flags, greedy, rleOnly, filter, rawOnly, fixedOnly);
    ghost var taken;
    r, compressed, taken := c.Compress(data, outSize, Finish);
    if r == Done {
      assert Output(c) == compressed && c.input == data;
      forall room | |data| <= room
        ensures var s := ReadStream(InputOf(compressed), room); s.Read? && Expand(s.value) == data
      {
        InflateUndoesCompress(c, room);
      }
      if |data| <= out.Length {
        InflateUndoesCompress(c, out.Length);
      } else {
        TooSmall(c, out.Length);
      }
      ok, produced := Inflate(InputOf(compressed), out);
    }
  }
}
