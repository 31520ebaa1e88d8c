// Bits in the order DEFLATE sends them (section 3.1.1 of RFC 1951): fields one after the other, each with its low bit
// first, as one number; and TDEFL_PUT_BITS of libjade/miniz.c, which packs them into bytes.
module BitStream {
  import opened Bits

  // A value of n bits with any bits after it.
  function Followed(value: nat, rest: nat, n: nat): nat {
    value + rest * Pow2(n)
  }

  datatype Field = Field(value: nat, len: nat)

  ghost predicate FieldOk(f: Field) {
    f.value < Pow2(f.len)
  }

  // Fields one after the other, with `rest` behind them.
  function Stream(fs: seq<Field>, rest: nat): nat {
    if fs == [] then rest else Followed(fs[0].value, Stream(fs[1..], rest), fs[0].len)
  }

  function Width(fs: seq<Field>): nat {
    if fs == [] then 0 else fs[0].len + Width(fs[1..])
  }

  lemma {:induction false} StreamConcat(a: seq<Field>, b: seq<Field>, rest: nat)
    ensures Stream(a + b, rest) == Stream(a, Stream(b, rest)) && Width(a + b) == Width(a) + Width(b)
  {
    if a == [] {
      assert a + b == b;
    } else {
      assert (a + b)[1..] == a[1..] + b;
      StreamConcat(a[1..], b, rest);
    }
  }

  lemma StreamHead(f: Field, fs: seq<Field>, rest: nat)
    ensures Stream([f] + fs, rest) == Followed(f.value, Stream(fs, rest), f.len)
    ensures Width([f] + fs) == f.len + Width(fs)
  {
    assert ([f] + fs)[1..] == fs;
  }

  lemma StreamOne(f: Field, rest: nat)
    ensures Stream([f], rest) == Followed(f.value, rest, f.len) && Width([f]) == f.len
  {
    assert [f] + [] == [f];
    StreamHead(f, [], rest);
  }

  // ---------------------------------------------------------------- reading

  // The field in front is the low bits, and shifting it out leaves the rest.
  lemma {:induction false} FollowedReads(value: nat, rest: nat, n: nat)
    requires value < Pow2(n)
    ensures Low(Followed(value, rest, n), n) == value && Shr(Followed(value, rest, n), n) == rest
  {
    if n > 0 {
      FollowedHalf(value, rest, n);
      FollowedReads(value / 2, rest, n - 1);
    }
  }

  lemma FollowedHalf(value: nat, rest: nat, n: nat)
    requires n > 0
    ensures var x := Followed(value, rest, n); x / 2 == Followed(value / 2, rest, n - 1) && x % 2 == value % 2
  {
    Regroup(rest, Pow2(n - 1), 2);
    Halves(value, rest * Pow2(n - 1));
  }

  lemma Halves(value: nat, y: nat)
    ensures (value + 2 * y) / 2 == value / 2 + y && (value + 2 * y) % 2 == value % 2
  {
  }

  lemma BoundArith(a: nat, b: nat, p: nat, q: nat)
    requires a < p && b < q
    ensures a + b * p < p * q
  {
    assert (b + 1) * p <= q * p;
  }

  lemma FollowedBound(a: nat, m: nat, b: nat, n: nat)
    requires a < Pow2(m) && b < Pow2(n)
    ensures Followed(a, b, m) < Pow2(m + n)
  {
    Pow2Sum(m, n);
    BoundArith(a, b, Pow2(m), Pow2(n));
  }

  // ---------------------------------------------------------------- the writer

  // Bytes, and then what is still in the buffer.
  function Bytes(bs: seq<Byte>, buffer: nat): nat {
    if bs == [] then buffer else Followed(bs[0], Bytes(bs[1..], buffer), 8)
  }

  lemma {:induction false} BytesAppend(bs: seq<Byte>, b: Byte, buffer: nat)
    ensures Bytes(bs + [b], buffer) == Bytes(bs, Followed(b, buffer, 8))
  {
    if bs == [] {
      assert bs + [b] == [b] && [b][1..] == [];
    } else {
      assert (bs + [b])[1..] == bs[1..] + [b];
      BytesAppend(bs[1..], b, buffer);
    }
  }

  lemma FollowedPut(a: nat, len: nat, x: nat, m: nat, value: nat)
    ensures Followed(a, x + value * Pow2(m), len) == Followed(a, x, len) + value * Pow2(len + m)
  {
    Pow2Sum(len, m);
    Distribute(x, value * Pow2(m), Pow2(len));
    Regroup(value, Pow2(m), Pow2(len));
  }

  // A field put behind what is in the buffer.
  lemma {:induction false} BytesPut(bs: seq<Byte>, buffer: nat, n: nat, value: nat)
    ensures Bytes(bs, Followed(buffer, value, n)) == Bytes(bs, buffer) + value * Pow2(8 * |bs| + n)
  {
    if bs == [] {
      assert 8 * |bs| + n == n;
    } else {
      BytesPut(bs[1..], buffer, n, value);
      var m := 8 * |bs[1..]| + n;
      assert 8 * |bs| + n == 8 + m;
      FollowedPut(bs[0], 8, Bytes(bs[1..], buffer), m, value);
    }
  }

  lemma {:induction false} StreamPut(fs: seq<Field>, value: nat)
    ensures Stream(fs, value) == Stream(fs, 0) + value * Pow2(Width(fs))
  {
    if fs != [] {
      StreamPut(fs[1..], value);
      FollowedPut(fs[0].value, fs[0].len, Stream(fs[1..], 0), Width(fs[1..]), value);
    }
  }

  // Whole bytes and a part of one hold exactly these fields.
  ghost predicate Holding(bytes: seq<Byte>, buffer: nat, bitsIn: nat, fields: seq<Field>) {
    && bitsIn < 8 && buffer < Pow2(bitsIn)
    && 8 * |bytes| + bitsIn == Width(fields) && Bytes(bytes, buffer) == Stream(fields, 0)
  }

  // m_bit_buffer, m_bits_in and m_pOutput_buf. Once the output is full, further bytes are dropped; the caller asks
  // for that at the end of a block. Full bytes are handed out block by block.
  class BitWriter {
    const out: array<Byte>
    var at: nat
    var buffer: nat
    var bitsIn: nat
    ghost var delivered: seq<Byte>
    ghost var fields: seq<Field>

    ghost predicate Valid()
      reads this, out
    {
      && at <= out.Length && bitsIn < 8 && buffer < Pow2(bitsIn)
      && 8 * (|delivered| + at) + bitsIn <= Width(fields)
      && (at < out.Length ==> Holding(delivered + out[..at], buffer, bitsIn, fields))
    }

    predicate Full()
      reads this
    {
      at == out.Length
    }

    // Only added to since: what was in front is still there.
    twostate predicate Ahead()
      reads this, out
    {
      && delivered == old(delivered) && old(at) <= at
      && forall k :: 0 <= k < old(at) && k < out.Length ==> out[k] == old(out[k])
    }

    constructor (size: nat)
      ensures Valid() && fields == [] && delivered == [] && at == 0 && fresh(out) && out.Length == size
    {
      out := new Byte[size](_ => 0);
      at, buffer, bitsIn, delivered, fields := 0, 0, 0, [], [];
    }

    // TDEFL_PUT_BITS: the buffer, at most 23 bits, never leaves its 32-bit word.
    method PutBits(value: nat, n: nat)
      requires Valid() && n <= 16 && FieldOk(Field(value, n))
      modifies this, out
      ensures Valid() && Ahead() && fields == old(fields) + [Field(value, n)]
      ensures 8 * at + bitsIn <= 8 * old(at) + old(bitsIn) + n
    {
      hide Bytes, Stream, Width, Pow2, Holding;
      Added(value, n);
      buffer := Followed(buffer, value, bitsIn);
      bitsIn := bitsIn + n;
      fields := fields + [Field(value, n)];
      assert buffer < 0x1_0000_0000 by {
        WordBound(bitsIn);
      }
      while bitsIn >= 8
        invariant Ahead() && at <= out.Length && buffer < Pow2(bitsIn) && fields == old(fields) + [Field(value, n)]
        invariant 8 * (|delivered| + at) + bitsIn <= Width(fields)
        invariant 8 * at + bitsIn <= 8 * old(at) + old(bitsIn) + n
        invariant at < out.Length ==> Filling(delivered + out[..at], buffer, bitsIn, fields)
      {
        ghost var was, b := delivered + out[..at], buffer;
        LowByte(b, bitsIn);
        if at < out.Length {
          out[at] := buffer % 256;
          at := at + 1;
          assert delivered + out[..at] == was + [b % 256];
          ByteOut(was, b, bitsIn, fields);
        }
        buffer := buffer / 256;
        bitsIn := bitsIn - 8;
      }
      if at < out.Length {
        Settled(delivered + out[..at], buffer, bitsIn, fields);
      }
    }

    lemma Added(value: nat, n: nat)
      requires Valid() && n <= 16 && FieldOk(Field(value, n))
      ensures Followed(buffer, value, bitsIn) < Pow2(bitsIn + n)
      ensures Width(fields + [Field(value, n)]) == Width(fields) + n
      ensures at < out.Length ==>
                Filling(delivered + out[..at], Followed(buffer, value, bitsIn), bitsIn + n, fields + [Field(value, n)])
    {
      FollowedBound(buffer, bitsIn, value, n);
      StreamConcat(fields, [Field(value, n)], 0);
      StreamOne(Field(value, n), 0);
      hide Stream, Width, Bytes, Followed, Pow2, Holding, Filling;
      if at < out.Length {
        FieldPut(delivered + out[..at], buffer, bitsIn, fields, value, n);
      }
    }

    // The bytes so far leave the buffer.
    method Deliver() returns (bytes: seq<Byte>)
      requires Valid() && !Full()
      modifies this
      ensures Valid() && at == 0 && bytes == old(out[..at]) && delivered == old(delivered) + bytes
      ensures fields == old(fields) && bitsIn == old(bitsIn) && Holding(delivered, buffer, bitsIn, fields)
    {
      bytes := out[..at];
      delivered := delivered + bytes;
      at := 0;
      assert delivered + out[..0] == delivered;
    }

    // Back to an earlier point in the same buffer.
    method Rewind(savedAt: nat, savedBuffer: nat, savedBitsIn: nat, ghost savedFields: seq<Field>)
      requires savedAt <= at <= out.Length && savedAt < out.Length
      requires Holding(delivered + out[..savedAt], savedBuffer, savedBitsIn, savedFields)
      modifies this
      ensures Valid() && at == savedAt && buffer == savedBuffer && bitsIn == savedBitsIn && fields == savedFields
      ensures delivered == old(delivered)
    {
      at, buffer, bitsIn, fields := savedAt, savedBuffer, savedBitsIn, savedFields;
    }

    // The same bits, cut into fields another way.
    ghost method Recut(recut: seq<Field>)
      requires Valid() && Stream(recut, 0) == Stream(fields, 0) && Width(recut) == Width(fields)
      modifies this`fields
      ensures Valid() && fields == recut
    {
      fields := recut;
    }
  }

  // Like Holding, while there may be more than a byte in the buffer.
  ghost predicate Filling(bytes: seq<Byte>, buffer: nat, bitsIn: nat, fields: seq<Field>) {
    8 * |bytes| + bitsIn == Width(fields) && Bytes(bytes, buffer) == Stream(fields, 0)
  }

  lemma FieldPut(bytes: seq<Byte>, buffer: nat, bitsIn: nat, fields: seq<Field>, value: nat, n: nat)
    requires Holding(bytes, buffer, bitsIn, fields)
    ensures Filling(bytes, Followed(buffer, value, bitsIn), bitsIn + n, fields + [Field(value, n)])
  {
    BytesPut(bytes, buffer, bitsIn, value);
    StreamConcat(fields, [Field(value, n)], 0);
    StreamOne(Field(value, n), 0);
    StreamPut(fields, value);
    assert Followed(value, 0, n) == value;
    hide Stream, Width, Bytes, Followed, Pow2;
  }

  lemma ByteOut(bytes: seq<Byte>, buffer: nat, bitsIn: nat, fields: seq<Field>)
    requires bitsIn >= 8 && buffer < Pow2(bitsIn) && Filling(bytes, buffer, bitsIn, fields)
    ensures Filling(bytes + [buffer % 256], buffer / 256, bitsIn - 8, fields)
  {
    LowByte(buffer, bitsIn);
    BytesAppend(bytes, buffer % 256, buffer / 256);
  }

  lemma Settled(bytes: seq<Byte>, buffer: nat, bitsIn: nat, fields: seq<Field>)
    requires bitsIn < 8 && buffer < Pow2(bitsIn) && Filling(bytes, buffer, bitsIn, fields)
    ensures Holding(bytes, buffer, bitsIn, fields)
  {
  }

  lemma WordBound(n: nat)
    requires n <= 24
    ensures Pow2(n) <= 0x100_0000
  {
    Pow2Monotone(n, 24);
    Pow2Values();
    Pow2Sum(8, 16);
    assert Pow2(8) == 256;
  }

  lemma LowByte(b: nat, n: nat)
    requires n >= 8 && b < Pow2(n)
    ensures Followed(b % 256, b / 256, 8) == b && b / 256 < Pow2(n - 8)
  {
    Pow2Sum(8, n - 8);
    assert Pow2(8) == 256;
  }
}
