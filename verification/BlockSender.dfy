// tdefl_flush_block() of libjade/miniz.c: in which form a block goes out, and that nothing of it is lost.
module BlockSender {
  import opened Bits
  import opened BitStream
  import opened CanonicalCode
  import opened BlockSymbols
  import opened LzCodes
  import opened BlockFormat
  import opened BlockStored
  import opened BlockHeader
  import opened DeflateStream
  import W = BlockWriter

  const OUT_SIZE := 85180    // TDEFL_OUT_BUF_SIZE - 16
  const SMALL_BLOCK := 48

  datatype Flush = NoFlush | SyncFlush | FullFlush | Finish

  // ---------------------------------------------------------------- the fixed code always fits

  // Nine bits of code buffer for a literal, twenty-five for a match.
  function Cost(ops: seq<Op>): nat {
    if ops == [] then 0 else (if ops[0].Literal? then 9 else 25) + Cost(ops[1..])
  }

  lemma {:induction false} CostSplit(ops: seq<Op>, k: nat)
    requires k <= |ops|
    ensures Cost(ops) == Cost(ops[..k]) + Cost(ops[k..])
    decreases k
  {
    if k == 0 {
      assert ops[..0] == [] && ops[0..] == ops;
    } else {
      CostSplit(ops[1..], k - 1);
      assert ops[..k][1..] == ops[1..][..k - 1] && ops[1..][k - 1..] == ops[k..];
    }
  }

  lemma {:induction false} PayloadCost(ops: seq<Op>)
    requires AllOk(ops)
    ensures 8 * |Payloads(ops)| + |ops| == Cost(ops)
  {
    if ops != [] {
      PayloadCost(ops[1..]);
    }
  }

  lemma {:induction false} PackedCost(ops: seq<Op>)
    requires AllOk(ops)
    ensures Cost(ops) <= 8 * |Packed(ops)|
    decreases |ops|
  {
    if ops != [] {
      hide Packed, Payloads, OpOk, Cost;
      PackedHead(ops);
      var k := if |ops| < 8 then |ops| else 8;
      PayloadCost(ops[..k]);
      CostSplit(ops, k);
      PackedCost(ops[k..]);
    } else {
      assert Cost(ops) == 0;
    }
  }

  lemma OpWidth(op: Op)
    requires Sendable(STATIC_LIT, STATIC_DIST, op)
    ensures Width(OpFields(STATIC_LIT, STATIC_DIST, op)) <= if op.Literal? then 9 else 32
  {
    StaticSizes();
    hide STATIC_LIT, STATIC_DIST, LenSym, DistSym, Wire, Low;
    var fs := OpFields(STATIC_LIT, STATIC_DIST, op);
    if op.Literal? {
      StreamOne(fs[0], 0);
    } else {
      assert fs == [fs[0]] + ([fs[1]] + ([fs[2]] + [fs[3]]));
      StreamOne(fs[3], 0);
      StreamHead(fs[2], [fs[3]], 0);
      StreamHead(fs[1], [fs[2]] + [fs[3]], 0);
      StreamHead(fs[0], [fs[1]] + ([fs[2]] + [fs[3]]), 0);
    }
  }

  lemma StaticSizes()
    ensures |STATIC_LIT| == LIT_SYMBOLS && forall k :: 0 <= k < LIT_SYMBOLS ==> STATIC_LIT[k] <= 9
    ensures |STATIC_DIST| == DIST_SYMBOLS && forall k :: 0 <= k < DIST_SYMBOLS ==> STATIC_DIST[k] == 5
  {
  }

  lemma {:induction false} OpsWidth(ops: seq<Op>)
    requires AllSendable(STATIC_LIT, STATIC_DIST, ops)
    ensures 25 * Width(OpsFields(STATIC_LIT, STATIC_DIST, ops)) <= 32 * Cost(ops)
  {
    hide STATIC_LIT, STATIC_DIST, OpFields, Sendable, Width;
    if ops == [] {
      NoWidth();
    } else {
      assert Sendable(STATIC_LIT, STATIC_DIST, ops[0]);
      OpWidth(ops[0]);
      OpsWidth(ops[1..]);
      StreamConcat(OpFields(STATIC_LIT, STATIC_DIST, ops[0]), OpsFields(STATIC_LIT, STATIC_DIST, ops[1..]), 0);
    }
  }

  lemma NoWidth()
    ensures Width([]) == 0
  {
  }

  // However full the code buffer, a block with the fixed code takes less than the output buffer.
  lemma StaticFits(ops: seq<Op>)
    requires AllOk(ops) && |Packed(ops)| <= CODE_BUF_SIZE
    requires AllSendable(STATIC_LIT, STATIC_DIST, ops) && Used(STATIC_LIT, END)
    ensures Width([Field(1, 2)] + Body(STATIC_LIT, STATIC_DIST, ops)) <= 8 * 83888
  {
    StaticSizes();
    hide STATIC_LIT, STATIC_DIST, Packed, Cost, OpsFields, Sendable, Wire, Width, Stream;
    PackedCost(ops);
    OpsWidth(ops);
    var end := SymbolField(STATIC_LIT, END);
    StreamConcat(OpsFields(STATIC_LIT, STATIC_DIST, ops), [end], 0);
    StreamOne(end, 0);
    StreamHead(Field(1, 2), Body(STATIC_LIT, STATIC_DIST, ops), 0);
  }

  // ---------------------------------------------------------------- a stored block

  // Zero bits up to the byte boundary.
  method PadOut(w: BitWriter) returns (ghost pad: nat)
    requires w.Valid()
    modifies w, w.out
    ensures w.Valid() && w.Ahead() && pad < 8 && w.fields == old(w.fields) + PadFields(pad)
    ensures 8 * w.at + w.bitsIn <= 8 * old(w.at) + old(w.bitsIn) + pad
    ensures !w.Full() ==> w.bitsIn == 0 && (Width(old(w.fields)) + pad) % 8 == 0
  {
    hide Width, Stream;
    pad := 0;
    if !w.Full() {
      Aligned(w);
    }
    if w.bitsIn != 0 {
      pad := 8 - w.bitsIn;
      ZeroFits(pad);
      w.PutBits(0, 8 - w.bitsIn);
      PadFacts(pad);
      StreamConcat(old(w.fields), PadFields(pad), 0);
      if !w.Full() {
        Aligned(w);
      }
    }
  }

  // While nothing has been dropped, the bits in the buffer say how far the stream is past a byte boundary.
  lemma Aligned(w: BitWriter)
    requires w.Valid() && !w.Full()
    ensures Width(w.fields) % 8 == w.bitsIn
  {
    hide Width, Bytes, Stream, Pow2;
    LowThree(|w.delivered| + w.at, w.bitsIn);
  }

  lemma LowThree(n: nat, b: nat)
    requires b < 8
    ensures (8 * n + b) % 8 == b
  {
  }

  // The bytes stand in the window from this position on, around its end.
  ghost predicate InDict(dict: seq<Byte>, at: nat, bytes: seq<Byte>) {
    && |bytes| <= DICT_SIZE <= |dict|
    && forall i :: 0 <= i < |bytes| ==> dict[(at + i) % DICT_SIZE] == bytes[i]
  }

  // Length, complement and the block's bytes out of the window.
  method PutStored(w: BitWriter, total: nat, dict: array<Byte>, dictPos: nat, ghost bytes: seq<Byte>)
    returns (ghost pad: nat)
    requires w.Valid() && w.at + 2 < w.out.Length && dict != w.out && dict.Length >= DICT_SIZE
    requires total == |bytes| && InDict(dict[..], dictPos, bytes)
    modifies w, w.out
    ensures w.Valid() && w.Ahead() && pad < 8 && (Width(old(w.fields)) + 2 + pad) % 8 == 0
    ensures w.fields == old(w.fields) + StoredFields(bytes, pad)
  {
    hide BitWriter.Valid, Width, PadFields, ByteFields;
    InBuffer(w);
    pad := PutKind(w);
    SixteenBits(total);
    w.PutBits(total % 0x1_0000, 16);
    w.PutBits(MAX_STORED - total % 0x1_0000, 16);
    PutBytes(w, total, dict, dictPos, bytes);
  }

  // The block's kind, to the byte boundary.
  method PutKind(w: BitWriter) returns (ghost pad: nat)
    requires w.Valid() && w.at + 2 < w.out.Length
    modifies w, w.out
    ensures w.Valid() && w.Ahead() && pad < 8 && (Width(old(w.fields)) + 2 + pad) % 8 == 0
    ensures w.fields == old(w.fields) + [Field(0, 2)] + PadFields(pad)
  {
    hide BitWriter.Valid, Width, PadFields, Stream, Followed, Pow2;
    SixteenBits(0);
    InBuffer(w);
    w.PutBits(0, 2);
    StreamConcat(old(w.fields), [Field(0, 2)], 0);
    StreamOne(Field(0, 2), 0);
    InBuffer(w);
    pad := PadOut(w);
  }

  method PutBytes(w: BitWriter, total: nat, dict: array<Byte>, dictPos: nat, ghost bytes: seq<Byte>)
    requires w.Valid() && dict != w.out && dict.Length >= DICT_SIZE
    requires total == |bytes| && InDict(dict[..], dictPos, bytes)
    modifies w, w.out
    ensures w.Valid() && w.Ahead() && w.fields == old(w.fields) + ByteFields(bytes)
  {
    hide BitWriter.Valid, ByteFields;
    ByteFieldsNone();
    for i := 0 to total
      invariant w.Valid() && w.Ahead() && w.fields == old(w.fields) + ByteFields(bytes[..i])
    {
      ByteFieldsAppend(bytes[..i], bytes[i]);
      assert bytes[..i + 1] == bytes[..i] + [bytes[i]];
      ByteFits(bytes[i]);
      w.PutBits(dict[(dictPos + i) % DICT_SIZE], 8);
    }
    assert bytes[..total] == bytes;
  }

  lemma InBuffer(w: BitWriter)
    requires w.Valid()
    ensures w.bitsIn < 8 && w.at <= w.out.Length
  {
  }

  lemma ByteFieldsNone()
    ensures ByteFields([]) == []
  {
  }

  lemma ByteFits(b: Byte)
    ensures FieldOk(Field(b, 8))
  {
    assert Pow2(8) == 256;
  }

  // ---------------------------------------------------------------- trying and going back

  datatype Mark = Mark(at: nat, buffer: nat, bitsIn: nat)

  // The writer can go back to where it held these fields.
  ghost predicate Marked(w: BitWriter, m: Mark, saved: seq<Field>)
    reads w, w.out
  {
    && m.at <= 1 && m.at <= w.at <= w.out.Length == OUT_SIZE
    && Holding(w.delivered + w.out[..m.at], m.buffer, m.bitsIn, saved)
  }

  // What has been written since takes no more room than its fields.
  lemma Room(w: BitWriter, m: Mark, saved: seq<Field>, more: seq<Field>)
    requires w.Valid() && Marked(w, m, saved) && w.fields == saved + more
    ensures 8 * w.at <= 15 + Width(more) && (w.Full() ==> 8 * OUT_SIZE <= 15 + Width(more))
  {
    StreamConcat(saved, more, 0);
  }

  // tdefl_compress_block(): with the fixed code it always fits.
  method TryBlock(w: BitWriter, fixed: bool, last: bool, codes: seq<Byte>, litCounts: seq<nat>, distCounts: seq<nat>,
                  ghost ops: seq<Op>, ghost m: Mark, ghost saved: seq<Field>)
    returns (ok: bool, ghost b: Sending)
    requires w.Valid() && Marked(w, m, saved) && w.fields == saved
    requires AllOk(ops) && codes == Packed(ops) && |codes| <= CODE_BUF_SIZE
    requires litCounts == LitCounts(ops) && distCounts == DistCounts(ops)
    modifies w, w.out
    ensures w.Valid() && Marked(w, m, saved) && w.delivered == old(w.delivered)
    ensures SendingOk(b) && b.last == last && OpsOf(b) == ops && b.Static? == fixed && b.Dynamic? == !fixed
    ensures w.fields == saved + SendingFields(b) && ok == !w.Full() && (fixed ==> w.at + 8 <= OUT_SIZE)
  {
    hide BitWriter.Valid, Packed, LitCounts, DistCounts, AllOk, Width, Holding;
    hide HeaderOk, HeaderFields, Body, AllSendable, Used, STATIC_LIT, STATIC_DIST;
    InBuffer(w);
    if fixed {
      ok := W.CompressStatic(w, codes, ops);
      b := Static(last, ops);
    } else {
      ghost var h;
      ok, h := W.CompressDynamic(w, codes, litCounts, distCounts, ops);
      b := Dynamic(last, h, ops);
    }
    InBuffer(w);
    assert w.out[..m.at] == old(w.out[..m.at]);
    if fixed {
      Room(w, m, saved, SendingFields(b));
      StaticFits(ops);
    }
  }

  // Back, and the same with the fixed code.
  method FixedInstead(w: BitWriter, last: bool, codes: seq<Byte>, ghost ops: seq<Op>, m: Mark, ghost saved: seq<Field>)
    returns (ghost b: Sending)
    requires w.Valid() && Marked(w, m, saved) && AllOk(ops) && codes == Packed(ops) && |codes| <= CODE_BUF_SIZE
    modifies w, w.out
    ensures w.Valid() && w.delivered == old(w.delivered) && w.at + 8 <= OUT_SIZE
    ensures b == Static(last, ops) && SendingOk(b) && w.fields == saved + SendingFields(b)
  {
    hide BitWriter.Valid, Packed, AllOk, Width, Holding, Body, AllSendable, Used, STATIC_LIT, STATIC_DIST;
    w.Rewind(m.at, m.buffer, m.bitsIn, saved);
    var ok := W.CompressStatic(w, codes, ops);
    b := Static(last, ops);
    InBuffer(w);
    assert w.out[..m.at] == old(w.out[..m.at]);
    Room(w, m, saved, SendingFields(b));
    StaticFits(ops);
  }

  // Back, and the bytes as they are.
  method StoreInstead(w: BitWriter, last: bool, total: nat, dict: array<Byte>, dictPos: nat, ghost bytes: seq<Byte>,
                      m: Mark, ghost saved: seq<Field>)
    returns (ghost b: Sending)
    requires w.Valid() && Marked(w, m, saved) && dict != w.out && dict.Length >= DICT_SIZE
    requires total == |bytes| && InDict(dict[..], dictPos, bytes)
    modifies w, w.out
    ensures w.Valid() && w.delivered == old(w.delivered) && w.at + 8 <= OUT_SIZE
    ensures b.Stored? && b.bytes == bytes && b.last == last && SendingOk(b) && w.fields == saved + SendingFields(b)
    ensures (Width(saved) + 2 + b.pad) % 8 == 0
  {
    hide BitWriter.Valid, Width, Holding, StoredFields;
    w.Rewind(m.at, m.buffer, m.bitsIn, saved);
    ghost var pad := PutStored(w, total, dict, dictPos, bytes);
    b := Stored(last, bytes, pad);
    InBuffer(w);
    assert w.out[..m.at] == old(w.out[..m.at]);
    Room(w, m, saved, SendingFields(b));
    StoredWidth(bytes, pad);
  }

  // ---------------------------------------------------------------- one block

  // The final bit, then the block: stored if the caller wants it so, or if it would not get smaller and its bytes are
  // still in the window; with the fixed code if it is small, or if its own code did not fit. Nothing is ever lost.
  method SendBlock(w: BitWriter, last: bool, codes: seq<Byte>, litCounts: seq<nat>, distCounts: seq<nat>, total: nat,
                   dict: array<Byte>, dictPos: nat, inWindow: bool, useRaw: bool, fixed: bool,
                   ghost ops: seq<Op>, ghost bytes: seq<Byte>)
    returns (ghost b: Sending)
    requires w.Valid() && w.at == 0 && w.out.Length == OUT_SIZE && dict != w.out && dict.Length >= DICT_SIZE
    requires AllOk(ops) && codes == Packed(ops) && |codes| <= CODE_BUF_SIZE && total == Produced(ops)
    requires litCounts == LitCounts(ops) && distCounts == DistCounts(ops) && (useRaw ==> inWindow)
    requires inWindow ==> total == |bytes| && InDict(dict[..], dictPos, bytes)
    modifies w, w.out
    ensures w.Valid() && w.Ahead() && !w.Full() && (!b.Dynamic? ==> w.at + 8 <= OUT_SIZE)
    ensures SendingOk(b) && b.last == last && w.fields == old(w.fields) + BlockFields(b)
    ensures StoredAt(b, Width(old(w.fields)))
    ensures if b.Stored? then inWindow && b.bytes == bytes else b.ops == ops
    ensures (useRaw ==> b.Stored?) && (fixed ==> !b.Dynamic?)
    ensures inWindow && total > 0 && !b.Stored? ==> w.at < total <= DICT_SIZE
  {
    hide BitWriter.Valid, Packed, LitCounts, DistCounts, Produced, AllOk, Width, Holding;
    hide SendingOk, SendingFields, Literals, Marked;
    var m := PutFinal(w, last);
    ghost var saved := w.fields;
    var ok := false;
    if !useRaw {
      ok, b := TryBlock(w, fixed, last, codes, litCounts, distCounts, ops, m, saved);
    }
    InBuffer(w);
    if (useRaw || (total > 0 && w.at - m.at + 1 >= total)) && inWindow {
      b := StoreInstead(w, last, total, dict, dictPos, bytes, m, saved);
    } else if !ok {
      b := FixedInstead(w, last, codes, ops, m, saved);
    }
    assert w.fields == old(w.fields) + BlockFields(b);
  }

  // TDEFL_PUT_BITS(flush == TDEFL_FINISH, 1), and the mark to come back to.
  method PutFinal(w: BitWriter, last: bool) returns (m: Mark)
    requires w.Valid() && w.at == 0 && w.out.Length == OUT_SIZE
    modifies w, w.out
    ensures w.Valid() && w.delivered == old(w.delivered) && w.fields == old(w.fields) + [FinalBit(last)]
    ensures Width(w.fields) == Width(old(w.fields)) + 1 && Marked(w, m, w.fields) && m.at == w.at <= 1
  {
    hide BitWriter.Valid, Marked, Width, Stream, Pow2, FieldOk, FinalBit, Holding;
    FinalOk(last);
    InBuffer(w);
    w.PutBits(FinalBit(last).value, 1);
    m := Mark(w.at, w.buffer, w.bitsIn);
    MarkHere(w);
    StreamConcat(old(w.fields), [FinalBit(last)], 0);
    StreamOne(FinalBit(last), 0);
  }

  lemma FinalOk(last: bool)
    ensures FieldOk(FinalBit(last)) && FinalBit(last) == Field(FinalBit(last).value, 1)
  {
  }

  lemma MarkHere(w: BitWriter)
    requires w.Valid() && w.out.Length == OUT_SIZE && w.at <= 1
    ensures Marked(w, Mark(w.at, w.buffer, w.bitsIn), w.fields)
  {
    hide Holding;
  }

  // ---------------------------------------------------------------- the end of a flush

  // A finished stream is filled up to a whole byte; a flush in between adds an empty stored block.
  method EndFlush(w: BitWriter, flush: Flush) returns (ghost marker: seq<Sending>, ghost pad: nat)
    requires w.Valid()
    modifies w, w.out
    ensures w.Valid() && w.Ahead() && |marker| <= 1 && Open(marker) && AllSent(marker)
    ensures w.fields == old(w.fields) + StreamFields(marker) + PadFields(pad) && pad < 8
    ensures 8 * w.at + w.bitsIn <= 8 * old(w.at) + old(w.bitsIn) + 42
    ensures !w.Full() ==> AlignedFrom(marker, Width(old(w.fields))) && AllOps(marker) == []
    ensures !w.Full() && flush != NoFlush ==> w.bitsIn == 0
    ensures flush == Finish || flush == NoFlush ==> marker == []
    ensures (flush != Finish ==> pad == 0) && (flush == NoFlush ==> w.at == old(w.at))
  {
    hide BitWriter.Valid, Width;
    marker, pad := [], 0;
    if flush == Finish {
      pad := PadOut(w);
    } else if flush != NoFlush {
      var p := PutMarker(w);
      marker := [Stored(false, [], p)];
    }
  }

  // An empty stored block.
  method PutMarker(w: BitWriter) returns (ghost pad: nat)
    requires w.Valid()
    modifies w, w.out
    ensures w.Valid() && w.Ahead() && pad < 8 && w.fields == old(w.fields) + BlockFields(Stored(false, [], pad))
    ensures 8 * w.at + w.bitsIn <= 8 * old(w.at) + old(w.bitsIn) + 42
    ensures !w.Full() ==> StoredAt(Stored(false, [], pad), Width(old(w.fields))) && w.bitsIn == 0
  {
    hide BitWriter.Valid, Width, PadFields, Stream;
    var kind := [FinalBit(false)] + [Field(0, 2)];
    SixteenBits(0);
    ThreeZeros(w.fields);
    w.PutBits(0, 3);
    w.Recut(old(w.fields) + kind);
    pad := PadOut(w);
    ghost var padded := w.fields;
    StreamConcat(old(w.fields) + kind, PadFields(pad), 0);
    PadFacts(pad);
    w.PutBits(0, 16);
    w.PutBits(0xFFFF, 16);
    MarkerFields(old(w.fields), pad);
    assert w.fields == padded + ([Field(0, 16)] + [Field(0xFFFF, 16)]);
    FourBytesOn(Width(padded));
    StreamConcat(padded, [Field(0, 16)] + [Field(0xFFFF, 16)], 0);
    StreamHead(Field(0, 16), [Field(0xFFFF, 16)], 0);
    StreamOne(Field(0xFFFF, 16), 0);
    InBuffer(w);
    if !w.Full() {
      Aligned(w);
    }
  }

  // The final bit and the kind as one field of three bits.
  lemma ThreeZeros(fields: seq<Field>)
    ensures FieldOk(Field(0, 3))
    ensures var kind := [FinalBit(false)] + [Field(0, 2)];
            && Stream(fields + kind, 0) == Stream(fields + [Field(0, 3)], 0)
            && Width(fields + kind) == Width(fields + [Field(0, 3)]) == Width(fields) + 3
  {
    hide Stream, Width, Followed, Pow2;
    ZeroFits(3);
    ZeroFollowed(1);
    ZeroFollowed(2);
    ZeroFollowed(3);
    StreamConcat(fields, [FinalBit(false)] + [Field(0, 2)], 0);
    StreamConcat(fields, [Field(0, 3)], 0);
    StreamHead(FinalBit(false), [Field(0, 2)], 0);
    StreamOne(Field(0, 2), 0);
    StreamOne(Field(0, 3), 0);
  }

  lemma FourBytesOn(n: nat)
    ensures n % 8 == 0 ==> (n + 32) % 8 == 0
  {
  }

  lemma ZeroFollowed(n: nat)
    ensures Followed(0, 0, n) == 0
  {
  }

  lemma MarkerFields(fields: seq<Field>, pad: nat)
    ensures fields + ([FinalBit(false)] + [Field(0, 2)]) + PadFields(pad) + [Field(0, 16)] + [Field(0xFFFF, 16)] ==
            fields + ([FinalBit(false)] + StoredFields([], pad))
  {
    hide PadFields;
    ByteFieldsNone();
    var p, lens := PadFields(pad), [Field(0, 16), Field(0xFFFF, 16)];
    assert StoredFields([], pad) == [Field(0, 2)] + (p + (lens + []));
    assert fields + ([FinalBit(false)] + [Field(0, 2)]) + p + [Field(0, 16)] + [Field(0xFFFF, 16)] ==
           fields + ([FinalBit(false)] + ([Field(0, 2)] + (p + (lens + []))));
  }
}
