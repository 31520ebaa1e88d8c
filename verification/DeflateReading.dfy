// Reading a stream from the front, step by step: what is needed to follow the decompressor of libjade/miniz.c through
// given bytes.
module DeflateReading {
  import opened Bits
  import opened BitStream
  import opened CanonicalCode
  import opened LzCodes
  import opened BlockFormat
  import opened BlockHeader
  import opened DeflateStream
  import opened DeflateFormat
  import R = CodeLengthRle

  // ---------------------------------------------------------------- reading from the front

  // Bits in front of others are what is read.
  lemma BitsRead(value: nat, k: nat, more: nat, n: nat)
    requires value < Pow2(k)
    ensures ReadBits(k, Input(Followed(value, more, k), n + k)) == Read(value, Input(more, n))
  {
    FollowedReads(value, more, k);
  }

  // The symbol has a code of this length, sent like this.
  ghost predicate Has(sizes: seq<nat>, s: nat, len: nat, wire: nat) {
    Fits(sizes) && Used(sizes, s) && sizes[s] == len && Wire(sizes, s) == wire
  }

  lemma SymbolRead(sizes: seq<nat>, s: nat, len: nat, wire: nat, more: nat, n: nat)
    requires Has(sizes, s, len, wire)
    ensures ReadSymbol(sizes, Input(Followed(wire, more, len), n + len)) == Read(s, Input(more, n))
  {
    hide ReadSymbol, Followed, Stream, Fits;
    SymbolReadsBack(sizes, s, [], Input(more, n));
    StreamOne(SymbolField(sizes, s), more);
    assert [SymbolField(sizes, s)] + [] == [SymbolField(sizes, s)];
    SentNothing(Input(more, n));
  }

  // The operations from the k-th on, with room for so many bytes, and what is behind the end of the block.
  ghost predicate Reads(lit: seq<nat>, dist: seq<nat>, ops: seq<Op>, k: nat, bits: nat, n: nat, room: nat,
                        rest: Input) {
    Tabled(lit, dist) && k <= |ops| && ReadOps(lit, dist, Input(bits, n), room) == Read(ops[k..], rest)
  }

  lemma LiteralRead(lit: seq<nat>, dist: seq<nat>, ops: seq<Op>, k: nat, s: nat, len: nat, wire: nat,
                    more: nat, n: nat, room: nat, rest: Input)
    requires k < |ops| && s < 256 && ops[k] == Literal(s) && Has(lit, s, len, wire)
    requires Reads(lit, dist, ops, k + 1, more, n, room, rest)
    ensures Reads(lit, dist, ops, k, Followed(wire, more, len), n + len, room + 1, rest)
  {
    hide ReadSymbol, Has, Followed;
    SymbolRead(lit, s, len, wire, more, n);
    assert [ops[k]] + ops[k + 1..] == ops[k..];
  }

  lemma LengthRead(s: nat, x: nat, more: nat, n: nat)
    requires 257 <= s <= 285 && x < Pow2(LengthBits(s))
    ensures ReadLength(s, Input(Followed(x, more, LengthBits(s)), n + LengthBits(s))) ==
            Read(LengthFrom(s) + x, Input(more, n))
  {
    hide LengthFrom, Pow2, Followed;
    LengthSymbol(s, Input(Followed(x, more, LengthBits(s)), n + LengthBits(s)));
    BitsRead(x, LengthBits(s), more, n);
  }

  lemma DistanceRead(dist: seq<nat>, s: nat, len: nat, wire: nat, x: nat, more: nat, n: nat)
    requires 0 < |dist| <= DIST_SYMBOLS && s < 30 && Has(dist, s, len, wire) && x < Pow2(DistanceBits(s))
    ensures ReadDistance(dist, Input(Followed(wire, Followed(x, more, DistanceBits(s)), len),
                                     n + DistanceBits(s) + len)) ==
            Read(DistanceFrom(s) + x, Input(more, n))
  {
    hide DistanceFrom, DistanceBits, Pow2, Followed, ReadSymbol, Has;
    var b := DistanceBits(s);
    SymbolRead(dist, s, len, wire, Followed(x, more, b), n + b);
    DistanceSymbol(dist, Input(Followed(wire, Followed(x, more, b), len), n + b + len));
    BitsRead(x, b, more, n);
  }

  // A match: length symbol, its extra bits, distance symbol, its extra bits.
  lemma MatchRead(lit: seq<nat>, dist: seq<nat>, ops: seq<Op>, k: nat, s: nat, len: nat, wire: nat, x: nat,
                  ds: nat, dlen: nat, dwire: nat, dx: nat, more: nat, n: nat, room: nat,
                  rest: Input)
    requires k < |ops| && 257 <= s <= 285 && ds < 30 && Has(lit, s, len, wire) && Has(dist, ds, dlen, dwire)
    requires x < Pow2(LengthBits(s)) && dx < Pow2(DistanceBits(ds))
    requires ops[k] == Match(DistanceFrom(ds) + dx, LengthFrom(s) + x)
    requires Reads(lit, dist, ops, k + 1, more, n, room, rest)
    ensures var far := Followed(dwire, Followed(dx, more, DistanceBits(ds)), dlen);
            Reads(lit, dist, ops, k, Followed(wire, Followed(x, far, LengthBits(s)), len),
                  n + DistanceBits(ds) + dlen + LengthBits(s) + len, room + ops[k].len, rest)
  {
    hide ReadSymbol, Has, LengthBits, LengthFrom, DistanceBits, DistanceFrom, Pow2, Followed, ReadBits, ReadOps;
    hide ReadLength, ReadDistance;
    var near := n + DistanceBits(ds) + dlen;
    var far := Followed(dwire, Followed(dx, more, DistanceBits(ds)), dlen);
    SymbolRead(lit, s, len, wire, Followed(x, far, LengthBits(s)), near + LengthBits(s));
    LengthRead(s, x, far, near);
    DistanceRead(dist, ds, dlen, dwire, dx, more, n);
    assert [ops[k]] + ops[k + 1..] == ops[k..];
    MatchInFront(lit, dist, s,
                 Input(Followed(wire, Followed(x, far, LengthBits(s)), len), near + LengthBits(s) + len),
                 Input(Followed(x, far, LengthBits(s)), near + LengthBits(s)),
                 ops[k], Input(more, n), room, ops[k + 1..], rest);
  }

  // A match in front of the rest.
  lemma MatchInFront(lit: seq<nat>, dist: seq<nat>, s: nat, all: Input, behind: Input, match_: Op, next: Input,
                     room: nat, ops: seq<Op>, rest: Input)
    requires Tabled(lit, dist) && s > END && match_.Match?
    requires ReadSymbol(lit, all) == Read(s, behind) && ReadMatch(s, dist, behind) == Read(match_, next)
    requires ReadOps(lit, dist, next, room) == Read(ops, rest)
    ensures ReadOps(lit, dist, all, room + match_.len) == Read([match_] + ops, rest)
  {
    hide ReadSymbol, ReadMatch;
  }

  lemma EndRead(lit: seq<nat>, dist: seq<nat>, ops: seq<Op>, len: nat, wire: nat, more: nat, n: nat, room: nat)
    requires Tabled(lit, dist) && Has(lit, END, len, wire)
    ensures Reads(lit, dist, ops, |ops|, Followed(wire, more, len), n + len, room, Input(more, n))
  {
    hide ReadSymbol, Has, Followed;
    SymbolRead(lit, END, len, wire, more, n);
    assert ops[|ops|..] == [];
  }

  lemma WholeOps(ops: seq<Op>)
    ensures ops[0..] == ops
  {
  }

  // ---------------------------------------------------------------- headers

  // One run of lengths.
  lemma LengthRun(cl: seq<nat>, out: seq<nat>, total: nat, s: nat, len: nat, wire: nat, more: nat, n: nat)
    requires |cl| == CL_CODES && |out| < total && (forall k :: 0 <= k < |out| ==> out[k] <= 15)
    requires s < 16 && Has(cl, s, len, wire)
    ensures ReadRuns(cl, out, total, Input(Followed(wire, more, len), n + len)) ==
            ReadRuns(cl, out + [s], total, Input(more, n))
  {
    hide ReadSymbol, Has, Followed;
    SymbolRead(cl, s, len, wire, more, n);
  }

  lemma CopyRun(cl: seq<nat>, out: seq<nat>, total: nat, s: nat, len: nat, wire: nat, x: nat, more: nat, n: nat)
    requires |cl| == CL_CODES && |out| < total && (forall k :: 0 <= k < |out| ==> out[k] <= 15)
    requires 16 <= s <= 18 && Has(cl, s, len, wire) && (s == 16 ==> out != [])
    requires x < Pow2(if s == 16 then 2 else if s == 17 then 3 else 7)
    ensures var b := if s == 16 then 2 else if s == 17 then 3 else 7;
            ReadRuns(cl, out, total, Input(Followed(wire, Followed(x, more, b), len), n + b + len)) ==
            ReadRuns(cl, out + (if s == 16 then R.Copies(out[|out| - 1], 3 + x)
                                else if s == 17 then R.Copies(0, 3 + x) else R.Copies(0, 11 + x)),
                     total, Input(more, n))
  {
    hide ReadSymbol, Has, ReadBits, Followed;
    var b := if s == 16 then 2 else if s == 17 then 3 else 7;
    SymbolRead(cl, s, len, wire, Followed(x, more, b), n + b);
    BitsRead(x, b, more, n);
  }

  lemma LengthSent(i: nat, n: nat, cl: seq<nat>, v: nat, more: nat, m: nat)
    requires |cl| == CL_CODES && i < n <= CL_CODES && (forall k :: 0 <= k < CL_CODES ==> cl[k] < 8) && v < 8
    ensures |SWIZZLE| == CL_CODES && SWIZZLE[i] < CL_CODES
    ensures ReadLengths(i, n, cl, Input(Followed(v, more, 3), m + 3)) ==
            ReadLengths(i + 1, n, cl[SWIZZLE[i] := v], Input(more, m))
  {
    SwizzleSizes();
    ThreeBits();
    hide ReadBits, SWIZZLE, Pow2, Followed;
    BitsRead(v, 3, more, m);
  }

  lemma LengthsEnd(n: nat, cl: seq<nat>, input: Input)
    requires |cl| == CL_CODES && n <= CL_CODES && forall k :: 0 <= k < CL_CODES ==> cl[k] < 8
    ensures ReadLengths(n, n, cl, input) == Read(cl, input)
  {
  }

  lemma RunPowers()
    ensures Pow2(2) == 4 && Pow2(3) == 8 && Pow2(4) == 16 && Pow2(7) == 128
  {
  }

  // ---------------------------------------------------------------- codes in their order

  // Shorter codes first, and codes of one length by symbol.
  predicate Before(sizes: seq<nat>, s: nat, t: nat)
    requires s < |sizes| && t < |sizes|
  {
    sizes[s] < sizes[t] || (sizes[s] == sizes[t] && s < t)
  }

  lemma {:induction false} NoneHere(sizes: seq<nat>, i: nat, j: nat, len: nat)
    requires i <= j <= |sizes| && forall u :: i <= u < j ==> sizes[u] != len
    ensures CountBelow(sizes, j, len) == CountBelow(sizes, i, len)
  {
    if i < j {
      NoneHere(sizes, i, j - 1, len);
    }
  }

  lemma Doubles(a: nat, k: nat)
    ensures if k == 0 then a * Pow2(k) == a else a * Pow2(k) == 2 * (a * Pow2(k - 1))
  {
    if k > 0 {
      Regroup(a, Pow2(k - 1), 2);
    }
  }

  // Lengths nobody has double the first code.
  lemma {:induction false} FirstSkips(sizes: seq<nat>, len: nat, k: nat)
    requires len >= 1 && forall u :: 0 <= u < |sizes| ==> !(len <= sizes[u] < len + k)
    ensures FirstCode(sizes, len + k) == FirstCode(sizes, len) * Pow2(k)
  {
    hide FirstCode, CountBelow, Pow2;
    Doubles(FirstCode(sizes, len), k);
    if k > 0 {
      FirstSkips(sizes, len, k - 1);
      NoneHere(sizes, 0, |sizes|, len + k - 1);
      FirstNext(sizes, len + k - 1);
    }
  }

  lemma FirstNext(sizes: seq<nat>, len: nat)
    requires len >= 1
    ensures FirstCode(sizes, len + 1) == 2 * (FirstCode(sizes, len) + Count(sizes, len))
    ensures CountBelow(sizes, 0, len) == 0 && FirstCode(sizes, 1) == 0
  {
  }

  lemma OneMore(sizes: seq<nat>, s: nat)
    requires s < |sizes|
    ensures CountBelow(sizes, s + 1, sizes[s]) == CountBelow(sizes, s, sizes[s]) + 1
  {
  }

  ghost predicate CodeIs(sizes: seq<nat>, s: nat, code: nat) {
    Used(sizes, s) && Code(sizes, s) == code
  }

  // The first code is all zeros.
  lemma CodeFirst(sizes: seq<nat>, s: nat)
    requires Used(sizes, s) && forall u :: 0 <= u < |sizes| && sizes[u] > 0 ==> !Before(sizes, u, s)
    ensures CodeIs(sizes, s, 0)
  {
    hide FirstCode, CountBelow;
    FirstNext(sizes, sizes[s]);
    FirstNext(sizes, 1);
    forall u | 0 <= u < |sizes| ensures !(1 <= sizes[u] < sizes[s]) && (u < s ==> sizes[u] != sizes[s]) {
      assert sizes[u] > 0 ==> !Before(sizes, u, s);
    }
    FirstSkips(sizes, 1, sizes[s] - 1);
    NoneHere(sizes, 0, s, sizes[s]);
  }

  // Behind the last code of a length, the codes of the next one start.
  lemma AfterLength(sizes: seq<nat>, s: nat, len: nat)
    requires Used(sizes, s) && sizes[s] < len
    requires forall u :: s < u < |sizes| ==> sizes[u] != sizes[s]
    requires forall u :: 0 <= u < |sizes| ==> !(sizes[s] < sizes[u] < len)
    ensures FirstCode(sizes, len) == (Code(sizes, s) + 1) * Pow2(len - sizes[s])
  {
    hide FirstCode, CountBelow;
    OneMore(sizes, s);
    NoneHere(sizes, s + 1, |sizes|, sizes[s]);
    FirstNext(sizes, sizes[s]);
    FirstSkips(sizes, sizes[s] + 1, len - sizes[s] - 1);
  }

  // No code between: the next number, with zeros behind it for a longer code.
  lemma CodeNext(sizes: seq<nat>, s: nat, t: nat, code: nat, next: nat)
    requires CodeIs(sizes, s, code) && Used(sizes, t) && Before(sizes, s, t)
    requires forall u :: 0 <= u < |sizes| && Before(sizes, s, u) ==> u == t || Before(sizes, t, u)
    requires next == (code + 1) * Pow2(sizes[t] - sizes[s])
    ensures CodeIs(sizes, t, next)
  {
    hide FirstCode, CountBelow, Pow2;
    FirstNext(sizes, sizes[t]);
    forall u | 0 <= u < |sizes|
      ensures !(sizes[s] < sizes[u] < sizes[t])
      ensures s < u < t ==> sizes[u] != sizes[s]
      ensures sizes[s] < sizes[t] ==> (s < u ==> sizes[u] != sizes[s]) && (u < t ==> sizes[u] != sizes[t])
    {
      assert Before(sizes, s, u) ==> u == t || Before(sizes, t, u);
    }
    if sizes[s] == sizes[t] {
      OneMore(sizes, s);
      NoneHere(sizes, s + 1, t, sizes[s]);
      OneBit();
    } else {
      NoneHere(sizes, 0, t, sizes[t]);
      AfterLength(sizes, s, sizes[t]);
    }
  }

  // The last code is all ones in a complete code.
  lemma CodeLast(sizes: seq<nat>, s: nat, code: nat)
    requires CodeIs(sizes, s, code) && sizes[s] <= 15 && code + 1 == Pow2(sizes[s])
    requires forall u :: 0 <= u < |sizes| ==> u == s || Before(sizes, u, s)
    ensures Fits(sizes) && Gate(sizes)
  {
    hide FirstCode, CountBelow;
    forall u | 0 <= u < |sizes| ensures sizes[u] <= sizes[s] && (s < u ==> sizes[u] != sizes[s]) {
      assert u == s || Before(sizes, u, s);
    }
    AfterLength(sizes, s, 16);
    Pow2Sum(sizes[s], 16 - sizes[s]);
    Pow2Values();
  }

  lemma OneBit()
    ensures Pow2(0) == 1
  {
  }

  lemma HasIs(sizes: seq<nat>, s: nat, code: nat, wire: nat)
    requires Fits(sizes) && CodeIs(sizes, s, code) && Reverse(code, sizes[s]) == wire
    ensures Has(sizes, s, sizes[s], wire)
  {
    hide Fits, Code, Reverse;
  }

  lemma Powers()
    ensures Pow2(0) == 1 && Pow2(1) == 2 && Pow2(2) == 4 && Pow2(3) == 8 && Pow2(4) == 16
  {
  }

  // ---------------------------------------------------------------- bytes

  lemma OneByte(a: Byte, more: seq<Byte>)
    ensures Bytes([a] + more, 0) == a + 0x100 * Bytes(more, 0)
  {
    assert Pow2(8) == 256;
    assert ([a] + more)[1..] == more;
  }

  lemma FourBytes(a: Byte, b: Byte, c: Byte, d: Byte, more: seq<Byte>)
    ensures Bytes([a, b, c, d] + more, 0) == a + 0x100 * b + 0x10000 * c + 0x1000000 * d + 0x100000000 * Bytes(more, 0)
  {
    hide Bytes;
    OneByte(d, more);
    OneByte(c, [d] + more);
    OneByte(b, [c] + ([d] + more));
    OneByte(a, [b] + ([c] + ([d] + more)));
    assert [a] + ([b] + ([c] + ([d] + more))) == [a, b, c, d] + more;
  }

  lemma LastByte(a: Byte)
    ensures Bytes([a], 0) == a
  {
    OneByte(a, []);
    assert [a] + [] == [a];
  }

  // ---------------------------------------------------------------- blocks

  lemma StaticBlock(input: Input, ops: seq<Op>, room: nat, bits: nat, n: nat, rest: Input)
    requires ReadBits(2, input) == Read(1, Input(bits, n))
    requires Reads(STATIC_LIT, STATIC_DIST, ops, 0, bits, n, room, rest)
    ensures ReadBlock(input, room) == Read(ops, rest)
  {
    hide ReadOps, ReadBits, STATIC_LIT, STATIC_DIST;
    assert ops[0..] == ops;
  }

  lemma StreamEnds(input: Input, next: Input, room: nat, ops: seq<Op>, rest: Input)
    requires ReadBits(1, input) == Read(1, next) && ReadBlock(next, room) == Read(ops, rest)
    ensures ReadStream(input, room) == Read(ops, rest)
  {
    hide ReadBits, ReadBlock, ReadStream;
    StreamStep(input, room);
  }

  lemma StreamGoesOn(input: Input, next: Input, room: nat, ops: seq<Op>, mid: Input, more: seq<Op>, rest: Input)
    requires ReadBits(1, input) == Read(0, next) && ReadBlock(next, room) == Read(ops, mid)
    requires Produced(ops) <= room && ReadStream(mid, room - Produced(ops)) == Read(more, rest)
    ensures ReadStream(input, room) == Read(ops + more, rest)
  {
    hide ReadBits, ReadBlock, ReadStream;
    StreamStep(input, room);
  }

  // ---------------------------------------------------------------- what operations stand for

  // What operations stand for, as far as the text in front of `at`.
  ghost predicate Told(ops: seq<Op>, k: nat, text: seq<Byte>, at: nat) {
    k <= |ops| && at <= |text| && Expand(ops[..k]) == text[..at]
  }

  lemma LiteralTold(ops: seq<Op>, k: nat, text: seq<Byte>, at: nat)
    requires Told(ops, k, text, at) && k < |ops| && at < |text| && ops[k] == Literal(text[at])
    ensures Told(ops, k + 1, text, at + 1)
  {
    ExpandAppend(ops[..k], ops[k]);
    assert ops[..k + 1] == ops[..k] + [ops[k]];
  }

  lemma MatchTold(ops: seq<Op>, k: nat, text: seq<Byte>, at: nat, dist: nat, len: nat)
    requires Told(ops, k, text, at) && k < |ops| && ops[k] == Match(dist, len) && Repeats(text, at, dist, len)
    ensures Told(ops, k + 1, text, at + len)
  {
    hide Expand;
    ExpandAppend(ops[..k], ops[k]);
    assert ops[..k + 1] == ops[..k] + [ops[k]];
    CopyIsInput(text, at, dist, len);
  }

  lemma AllTold(ops: seq<Op>, text: seq<Byte>)
    requires Told(ops, |ops|, text, |text|)
    ensures Expand(ops) == text
  {
    hide Expand;
    assert ops[..|ops|] == ops && text[..|text|] == text;
  }

  lemma ExpandNothing()
    ensures Expand([]) == []
  {
  }
}
