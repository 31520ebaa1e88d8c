// A stored block of DEFLATE (section 3.2.4 of RFC 1951): bytes as they are, behind their length and its complement at a
// byte boundary. For the decoder they are literals.
module BlockStored {
  import opened Bits
  import opened BitStream
  import opened LzCodes
  import opened BlockFormat

  const MAX_STORED := 65535

  function Literals(bytes: seq<Byte>): (ops: seq<Op>)
    ensures |ops| == |bytes| && forall i :: 0 <= i < |ops| ==> ops[i] == Literal(bytes[i])
  {
    seq(|bytes|, i requires 0 <= i < |bytes| => Literal(bytes[i]))
  }

  lemma {:induction false} LiteralsProduced(bytes: seq<Byte>)
    ensures Produced(Literals(bytes)) == |bytes|
  {
    if bytes != [] {
      assert Literals(bytes)[1..] == Literals(bytes[1..]);
      LiteralsProduced(bytes[1..]);
    }
  }

  lemma OneLiteral(out: seq<Byte>, b: Byte)
    ensures Apply(out, Literal(b)) == out + [b] && OpOk(Literal(b))
  {
  }

  // Literals stand for their bytes, whatever is in front.
  lemma {:induction false} LiteralsExpand(ops: seq<Op>, bytes: seq<Byte>)
    requires Sound(ops)
    ensures Sound(ops + Literals(bytes)) && Expand(ops + Literals(bytes)) == Expand(ops) + bytes
  {
    if bytes == [] {
      assert ops + Literals(bytes) == ops && Expand(ops) + bytes == Expand(ops);
    } else {
      hide Expand, Sound, Literals, CopyMatch, Apply, OpOk;
      var n := |bytes| - 1;
      LiteralsExpand(ops, bytes[..n]);
      assert Literals(bytes) == Literals(bytes[..n]) + [Literal(bytes[n])];
      assert ops + Literals(bytes) == ops + Literals(bytes[..n]) + [Literal(bytes[n])];
      ExpandAppend(ops + Literals(bytes[..n]), Literal(bytes[n]));
      OneLiteral(Expand(ops + Literals(bytes[..n])), bytes[n]);
      assert bytes[..n] + [bytes[n]] == bytes;
      assert Expand(ops) + bytes[..n] + [bytes[n]] == Expand(ops) + (bytes[..n] + [bytes[n]]);
    }
  }

  // ---------------------------------------------------------------- fields

  function ByteFields(bytes: seq<Byte>): (fs: seq<Field>)
    ensures |fs| == |bytes|
  {
    if bytes == [] then [] else [Field(bytes[0], 8)] + ByteFields(bytes[1..])
  }

  lemma {:induction false} ByteFieldsAppend(bytes: seq<Byte>, b: Byte)
    ensures ByteFields(bytes + [b]) == ByteFields(bytes) + [Field(b, 8)]
  {
    if bytes == [] {
      assert bytes + [b] == [b] && [b][1..] == [];
    } else {
      assert (bytes + [b])[1..] == bytes[1..] + [b];
      ByteFieldsAppend(bytes[1..], b);
    }
  }

  lemma {:induction false} ByteFieldsWidth(bytes: seq<Byte>)
    ensures Width(ByteFields(bytes)) == 8 * |bytes|
  {
    if bytes != [] {
      ByteFieldsWidth(bytes[1..]);
    }
  }

  // Zero bits, if any are needed.
  function PadFields(pad: nat): seq<Field> {
    if pad == 0 then [] else [Field(0, pad)]
  }

  lemma PadFacts(pad: nat)
    ensures Width(PadFields(pad)) == pad && forall rest :: Stream(PadFields(pad), rest) == Followed(0, rest, pad)
  {
    if pad > 0 {
      forall rest ensures Stream(PadFields(pad), rest) == Followed(0, rest, pad) {
        StreamOne(Field(0, pad), rest);
      }
    }
  }

  // Kind, padding, length, complement, bytes.
  function StoredFields(bytes: seq<Byte>, pad: nat): seq<Field>
    requires |bytes| <= MAX_STORED
  {
    [Field(0, 2)] + (PadFields(pad) + ([Field(|bytes|, 16), Field(MAX_STORED - |bytes|, 16)] + ByteFields(bytes)))
  }

  lemma StoredWidth(bytes: seq<Byte>, pad: nat)
    requires |bytes| <= MAX_STORED
    ensures Width(StoredFields(bytes, pad)) == 34 + pad + 8 * |bytes|
  {
    var body, n, m := ByteFields(bytes), Field(|bytes|, 16), Field(MAX_STORED - |bytes|, 16);
    hide Stream, Width, Followed, ByteFields;
    ByteFieldsWidth(bytes);
    PadFacts(pad);
    assert StoredFields(bytes, pad) == [Field(0, 2)] + (PadFields(pad) + ([n] + ([m] + body)));
    hide PadFields;
    StreamHead(m, body, 0);
    StreamHead(n, [m] + body, 0);
    StreamConcat(PadFields(pad), [n] + ([m] + body), 0);
    StreamHead(Field(0, 2), PadFields(pad) + ([n] + ([m] + body)), 0);
  }

  // ---------------------------------------------------------------- reading

  // So many bytes, each as a literal.
  function ReadBytes(n: nat, input: Input): (r: Read<seq<Op>>)
    ensures r.Read? ==> |r.value| == n == Produced(r.value) && r.rest.count <= input.count
  {
    if n == 0 then Read([], input)
    else
      var b := ReadBits(8, input);
      if b.Failed? then Failed
      else
        assert Pow2(8) == 256;
        var more := ReadBytes(n - 1, b.rest);
        if more.Failed? then Failed else Read([Literal(b.value)] + more.value, more.rest)
  }

  // From behind the block's kind: to the byte boundary, length and complement, the bytes.
  function ReadStored(input: Input, room: nat): (r: Read<seq<Op>>)
    ensures r.Read? ==> r.rest.count <= input.count && Produced(r.value) <= room
  {
    var len := ReadBits(16, Skip(input, input.count % 8));
    if len.Failed? then Failed
    else
      var complement := ReadBits(16, len.rest);
      if complement.Failed? || len.value + complement.value != MAX_STORED || len.value > room then Failed
      else ReadBytes(len.value, complement.rest)
  }

  lemma {:induction false} BytesBack(bytes: seq<Byte>, fields: seq<Field>, rest: Input)
    ensures ReadBytes(|bytes|, Sent(ByteFields(bytes) + fields, rest)) == Read(Literals(bytes), Sent(fields, rest))
  {
    hide Sent, ReadBits;
    if bytes == [] {
      assert ByteFields(bytes) + fields == fields;
    } else {
      assert Pow2(8) == 256;
      assert ByteFields(bytes) + fields == [Field(bytes[0], 8)] + (ByteFields(bytes[1..]) + fields);
      BitsReadBack(Field(bytes[0], 8), ByteFields(bytes[1..]) + fields, rest);
      BytesBack(bytes[1..], fields, rest);
      assert [Literal(bytes[0])] + Literals(bytes[1..]) == Literals(bytes);
    }
  }

  // Padding that ends where a whole number of bytes is left is skipped.
  lemma PadSkipped(pad: nat, fields: seq<Field>, rest: Input)
    requires pad < 8 && (Width(fields) + rest.count) % 8 == 0
    ensures var input := Sent(PadFields(pad) + fields, rest); Skip(input, input.count % 8) == Sent(fields, rest)
  {
    hide Stream, Width, PadFields, Followed, Pow2, Shr, Low;
    PadFacts(pad);
    StreamConcat(PadFields(pad), fields, rest.bits);
    PadMod(pad, Width(fields) + rest.count);
    ZeroFits(pad);
    FollowedReads(0, Stream(fields, rest.bits), pad);
  }

  lemma PadMod(pad: nat, count: nat)
    requires pad < 8 && count % 8 == 0
    ensures (pad + count) % 8 == pad
  {
  }

  lemma ZeroFits(n: nat)
    ensures 0 < Pow2(n)
  {
  }

  // A stored block is read back as its bytes, provided it is followed by a whole number of bytes.
  lemma StoredBack(bytes: seq<Byte>, pad: nat, rest: Input, room: nat)
    requires |bytes| <= MAX_STORED && pad < 8 && rest.count % 8 == 0 && |bytes| <= room
    ensures var kind := ReadBits(2, Sent(StoredFields(bytes, pad), rest));
            kind.Read? && kind.value == 0 && ReadStored(kind.rest, room) == Read(Literals(bytes), rest)
  {
    var n, m := Field(|bytes|, 16), Field(MAX_STORED - |bytes|, 16);
    var all := PadFields(pad) + ([n] + ([m] + ByteFields(bytes)));
    assert StoredFields(bytes, pad) == [Field(0, 2)] + all;
    hide Sent, ReadBits, PadFields, StoredFields, ReadStored;
    SixteenBits(|bytes|);
    BitsReadBack(Field(0, 2), all, rest);
    StoredRest(bytes, pad, rest, room);
  }

  lemma StoredRest(bytes: seq<Byte>, pad: nat, rest: Input, room: nat)
    requires |bytes| <= MAX_STORED && pad < 8 && rest.count % 8 == 0 && |bytes| <= room
    ensures var n, m := Field(|bytes|, 16), Field(MAX_STORED - |bytes|, 16);
            ReadStored(Sent(PadFields(pad) + ([n] + ([m] + ByteFields(bytes))), rest), room) ==
            Read(Literals(bytes), rest)
  {
    hide Sent, ReadBits, PadFields, ReadBytes, Stream, Width, ByteFields;
    var n, m, body := Field(|bytes|, 16), Field(MAX_STORED - |bytes|, 16), ByteFields(bytes);
    ByteFieldsWidth(bytes);
    StreamHead(m, body, 0);
    StreamHead(n, [m] + body, 0);
    SixteenBits(|bytes|);
    PadSkipped(pad, [n] + ([m] + body), rest);
    BitsReadBack(n, [m] + body, rest);
    BitsReadBack(m, body, rest);
    assert body + [] == body;
    BytesBack(bytes, [], rest);
    SentNothing(rest);
  }

  lemma SixteenBits(n: nat)
    requires n <= MAX_STORED
    ensures FieldOk(Field(n, 16)) && FieldOk(Field(MAX_STORED - n, 16)) && FieldOk(Field(0, 2))
  {
    Pow2Values();
  }
}
