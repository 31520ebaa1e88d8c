// Where the blocks of libjade/miniz.c go: the bit writer, what waits for the caller's next buffer, and that everything
// given to the caller so far is a stream of blocks that stands for what was flushed.
module BlockOutlet {
  import opened Bits
  import opened BitStream
  import opened LzCodes
  import opened BlockStored
  import opened DeflateStream
  import opened BlockSender

  // The blocks sent stand for these operations.
  ghost predicate Stands(sent: seq<Sending>, flushed: seq<Op>) {
    && Sound(flushed) && Sound(AllOps(sent)) && Expand(AllOps(sent)) == Expand(flushed)
  }

  // The writer holds exactly these blocks, each where it may stand, and at the end of a stream the bits that fill the
  // last byte.
  ghost predicate Speaks(fields: seq<Field>, sent: seq<Sending>, pad: nat) {
    && AllSent(sent) && AlignedFrom(sent, 0) && pad < 8
    && fields == StreamFields(sent) + PadFields(pad)
    && (Open(sent) || Closed(sent)) && (Open(sent) ==> pad == 0)
  }

  // The same bytes from other operations: what follows means the same.
  lemma {:induction false} SameFront(a: seq<Op>, b: seq<Op>, more: seq<Op>)
    requires Sound(a) && Sound(b + more) && Expand(a) == Expand(b) && Sound(b)
    ensures Sound(a + more) && Expand(a + more) == Expand(b + more)
    decreases |more|
  {
    if more == [] {
      assert a + more == a && b + more == b;
    } else {
      var n := |more| - 1;
      var op := more[n];
      assert (b + more)[..|b + more| - 1] == b + more[..n] && a + more == a + more[..n] + [op];
      assert b + more == b + more[..n] + [op];
      SoundFront(b + more[..n], op);
      SameFront(a, b, more[..n]);
      ExpandAppend(a + more[..n], op);
      ExpandAppend(b + more[..n], op);
    }
  }

  lemma SoundFront(ops: seq<Op>, op: Op)
    requires Sound(ops + [op])
    ensures Sound(ops) && OpOk(op) && (op.Match? ==> op.dist <= |Expand(ops)|)
  {
    assert (ops + [op])[..|ops|] == ops;
  }

  // One more block, coded or stored, and perhaps the marker of a flush.
  lemma StandsNext(sent: seq<Sending>, flushed: seq<Op>, b: Sending, ops: seq<Op>, bytes: seq<Byte>)
    requires Stands(sent, flushed) && Sound(flushed + ops) && AllSent(sent) && SendingOk(b)
    requires if b.Stored? then b.bytes == bytes && Expand(flushed + ops) == Expand(flushed) + bytes else b.ops == ops
    ensures Stands(sent + [b], flushed + ops)
  {
    hide Sound, Expand, SendingOk;
    StreamNext(sent, b, 0);
    if b.Stored? {
      LiteralsExpand(AllOps(sent), bytes);
    } else {
      SameFront(AllOps(sent), flushed, ops);
    }
  }

  lemma SpeaksNext(fields: seq<Field>, sent: seq<Sending>, b: Sending)
    requires Speaks(fields, sent, 0) && Open(sent) && SendingOk(b) && StoredAt(b, Width(fields))
    ensures Speaks(fields + BlockFields(b), sent + [b], 0)
    ensures if b.last then Closed(sent + [b]) else Open(sent + [b])
  {
    hide SendingOk, BlockFields, StoredAt, StreamFields, AlignedFrom, PadFields, Width;
    NoPad();
    StreamNext(sent, b, 0);
    assert StreamFields(sent) + [] == StreamFields(sent);
    assert StreamFields(sent + [b]) + [] == StreamFields(sent + [b]);
  }

  lemma NoPad()
    ensures PadFields(0) == []
  {
  }

  // The marker of a flush is a block like any other; the bits that fill the last byte end the stream.
  lemma SpeaksEnd(fields: seq<Field>, sent: seq<Sending>, marker: seq<Sending>, pad: nat)
    requires Speaks(fields, sent, 0) && AllSent(marker) && |marker| <= 1 && Open(marker) && pad < 8
    requires AlignedFrom(marker, Width(fields)) && (Open(sent) ==> pad == 0) && (Closed(sent) ==> marker == [])
    requires marker != [] ==> pad == 0
    ensures Speaks(fields + StreamFields(marker) + PadFields(pad), sent + marker, pad)
    ensures Open(sent) ==> Open(sent + marker)
    ensures marker == [] ==> sent + marker == sent
  {
    hide SendingOk, BlockFields, StoredAt;
    if marker == [] {
      assert PadFields(0) == [] && sent + marker == sent;
      assert fields + [] + PadFields(pad) == StreamFields(sent) + PadFields(pad);
    } else {
      var b := marker[0];
      assert marker == [b] && marker[1..] == [];
      SpeaksNext(fields, sent, b);
      assert BlockFields(b) + [] == BlockFields(b);
      assert PadFields(0) == [] && fields + BlockFields(b) + [] == fields + BlockFields(b);
    }
  }

  lemma MarkerStands(sent: seq<Sending>, marker: seq<Sending>, flushed: seq<Op>)
    requires Stands(sent, flushed) && AllSent(sent) && AllSent(marker) && |marker| <= 1 && AllOps(marker) == []
    ensures Stands(sent + marker, flushed)
  {
    hide Sound, Expand, SendingOk, OpsOf;
    if marker == [] {
      assert sent + marker == sent;
    } else {
      var b := marker[0];
      assert marker == [b] && marker[1..] == [];
      StreamNext(sent, b, 0);
      assert OpsOf(b) + [] == OpsOf(b);
      assert AllOps(sent) + [] == AllOps(sent);
    }
  }

  lemma NoFields()
    ensures StreamFields([]) == []
  {
  }

  lemma NotBoth(bs: seq<Sending>)
    ensures !(Open(bs) && Closed(bs))
  {
    if Open(bs) && bs != [] {
      assert !bs[|bs| - 1].last;
    }
  }

  // Everything a flush writes.
  lemma FlushSpeaks(fields: seq<Field>, sent: seq<Sending>, b: Sending, marker: seq<Sending>, p: nat, pad: nat)
    requires Speaks(fields, sent, pad) && Open(sent) && SendingOk(b) && StoredAt(b, Width(fields))
    requires AllSent(marker) && |marker| <= 1 && Open(marker) && p < 8
    requires AlignedFrom(marker, Width(fields + BlockFields(b))) && (!b.last ==> p == 0) && (b.last ==> marker == [])
    requires marker != [] ==> p == 0
    ensures Speaks(fields + BlockFields(b) + StreamFields(marker) + PadFields(p), sent + [b] + marker, p)
    ensures AllSent(sent) && (if b.last then Closed(sent + [b] + marker) else Open(sent + [b] + marker))
  {
    hide SendingOk, BlockFields, StoredAt, StreamFields, AlignedFrom, PadFields, Width;
    NotBoth(sent + [b]);
    SpeaksNext(fields, sent, b);
    SpeaksEnd(fields + BlockFields(b), sent + [b], marker, p);
  }

  lemma FlushStands(sent: seq<Sending>, flushed: seq<Op>, b: Sending, ops: seq<Op>, bytes: seq<Byte>,
                    marker: seq<Sending>)
    requires Stands(sent, flushed) && Sound(flushed + ops) && AllSent(sent) && SendingOk(b)
    requires if b.Stored? then b.bytes == bytes && Expand(flushed + ops) == Expand(flushed) + bytes else b.ops == ops
    requires AllSent(marker) && |marker| <= 1 && AllOps(marker) == []
    ensures Stands(sent + [b] + marker, flushed + ops)
  {
    hide SendingOk, Stands, Sound, Expand;
    StandsNext(sent, flushed, b, ops, bytes);
    MarkerStands(sent + [b], marker, flushed + ops);
  }

  class Outlet {
    const w: BitWriter
    var outSize: nat          // *m_pOut_buf_size
    var output: seq<Byte>     // put into the caller's buffer so far; m_out_buf_ofs is its length
    var pending: seq<Byte>    // what waits for the next buffer
    var broken: bool          // an assertion failed: the output buffer was overrun
    ghost var given: seq<Byte>    // what earlier calls put into their buffers
    ghost var sent: seq<Sending>
    ghost var pad: nat

    ghost predicate Valid()
      reads this, w, w.out
    {
      && w.Valid() && w.out.Length == OUT_SIZE && |output| <= outSize
      && (!broken ==> w.at == 0 && w.delivered == given + output + pending && Speaks(w.fields, sent, pad))
    }

    constructor ()
      ensures Valid() && !broken && sent == [] && pending == output == given == [] && fresh(w) && fresh(w.out)
    {
      w := new BitWriter(OUT_SIZE);
      outSize, output, pending, broken := 0, [], [], false;
      given, sent, pad := [], [], 0;
    }

    // A new buffer from the caller.
    method Begin(size: nat)
      requires Valid()
      modifies this
      ensures Valid() && outSize == size && output == [] && given == old(given) + old(output)
      ensures pending == old(pending) && broken == old(broken) && sent == old(sent)
    {
      outSize, given, output := size, given + output, [];
      assert given + output + pending == given + pending;
    }

    // tdefl_flush_output_buffer(): as much of what waits as fits.
    method FlushOutput()
      requires Valid()
      modifies this`output, this`pending
      ensures Valid() && (pending != [] ==> |output| == outSize) && |pending| <= |old(pending)|
      ensures old(pending) == [] || |old(output)| == outSize ==> pending == old(pending) && output == old(output)
    {
      var n := if outSize - |output| < |pending| then outSize - |output| else |pending|;
      assert given + (output + pending[..n]) + pending[n..] == given + output + pending;
      output, pending := output + pending[..n], pending[n..];
    }

    // tdefl_flush_block() from the final bit on.
    method Flush(flush: Flush, codes: seq<Byte>, litCounts: seq<nat>, distCounts: seq<nat>, total: nat,
                 dict: array<Byte>, dictPos: nat, inWindow: bool, useRaw: bool, fixed: bool,
                 ghost ops: seq<Op>, ghost bytes: seq<Byte>, ghost flushed: seq<Op>)
      requires Valid() && !broken && pending == [] && Open(sent) && dict != w.out && dict.Length >= DICT_SIZE
      requires Stands(sent, flushed) && Sound(flushed + ops) && AllOk(ops) && codes == Packed(ops)
      requires |codes| <= CODE_BUF_SIZE && total == Produced(ops) && (useRaw ==> inWindow)
      requires litCounts == LitCounts(ops) && distCounts == DistCounts(ops)
      requires Expand(flushed + ops) == Expand(flushed) + bytes && total == |bytes|
      requires inWindow ==> InDict(dict[..], dictPos, bytes)
      modifies this, w, w.out
      ensures Valid() && outSize == old(outSize) && given == old(given)
      ensures !broken ==> Stands(sent, flushed + ops) && (if flush == Finish then Closed(sent) else Open(sent))
      ensures !broken && flush != NoFlush ==> w.bitsIn == 0
      ensures !broken && pending != [] ==> |output| == outSize
      ensures broken ==> flush != NoFlush && !fixed && !useRaw && (inWindow ==> total == 0)
    {
      hide BitWriter.Valid, Packed, LitCounts, DistCounts, Produced, AllOk, Sound, Expand, Stands, Speaks, Open, Closed;
      hide SendingOk, BlockFields, StoredAt, AlignedFrom, StreamFields, PadFields, InDict;
      ghost var fields := w.fields;
      NoFields();
      assert given + output + [] == given + output;
      ghost var b := SendBlock(w, flush == Finish, codes, litCounts, distCounts, total, dict, dictPos, inWindow, useRaw,
                               fixed, ops, bytes);
      InBuffer(w);
      ghost var marker, p := EndFlush(w, flush);
      if w.Full() {
        broken := true;
        return;
      }
      FlushSpeaks(fields, sent, b, marker, p, pad);
      FlushStands(sent, flushed, b, ops, bytes, marker);
      HandOut();
      sent, pad := sent + [b] + marker, p;
    }

    // What the block left in the output buffer, to the caller as far as it fits.
    method HandOut()
      requires w.Valid() && !w.Full() && |output| <= outSize && pending == [] && w.delivered == given + output
      modifies w, this`output, this`pending
      ensures w.Valid() && w.at == 0 && |output| <= outSize && w.delivered == given + output + pending
      ensures w.fields == old(w.fields) && w.bitsIn == old(w.bitsIn) && (pending != [] ==> |output| == outSize)
    {
      hide BitWriter.Valid;
      var more := w.Deliver();
      var n := if outSize - |output| < |more| then outSize - |output| else |more|;
      assert given + (output + more[..n]) + more[n..] == given + output + more;
      output, pending := output + more[..n], more[n..];
    }
  }
}
