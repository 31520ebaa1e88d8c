// The deferred-modulo Adler-32 at the end of tinfl_decompress(), libjade/miniz.c, against the per-byte
// definition in section 2.2 of RFC 1950.
module Adler32 {
  import opened Bits

  const BASE := 65521
  const BLOCK := 5552

  newtype U32 = x: int | 0 <= x < 0x1_0000_0000

  datatype Sums = Sums(s1: nat, s2: nat)

  predicate Reduced(s: Sums) {
    s.s1 < BASE && s.s2 < BASE
  }

  // s1 sums the bytes and s2 sums the values of s1, each addition modulo 65521.
  function PerByte(s: Sums, data: seq<Byte>): (r: Sums)
    requires Reduced(s)
    ensures Reduced(r)
  {
    if data == [] then s
    else
      var p := PerByte(s, data[..|data| - 1]);
      var s1 := (p.s1 + data[|data| - 1]) % BASE;
      Sums(s1, (p.s2 + s1) % BASE)
  }

  // The same sums with no modulo at all.
  function Plain(s: Sums, data: seq<Byte>): Sums {
    if data == [] then s
    else
      var p := Plain(s, data[..|data| - 1]);
      Sums(p.s1 + data[|data| - 1], p.s2 + p.s1 + data[|data| - 1])
  }

  lemma ModAdd(x: nat, y: nat, m: nat)
    requires m > 0
    ensures (x % m + y) % m == (x + y) % m
  {
    var q, r := x / m, x % m + y;
    assert x + y == m * (q + r / m) + r % m by {
      assert r == m * (r / m) + r % m;
    }
    DivModUnique(x + y, m, q + r / m, r % m);
  }

  lemma StepDeferred(q: Sums, p: Sums, c: nat)
    requires q.s1 == p.s1 % BASE && q.s2 == p.s2 % BASE
    ensures var s1 := (q.s1 + c) % BASE; s1 == (p.s1 + c) % BASE && (q.s2 + s1) % BASE == (p.s2 + p.s1 + c) % BASE
  {
    ModAdd(p.s1, c, BASE);
    ModAdd(p.s2, (p.s1 + c) % BASE, BASE);
    ModAdd(p.s1 + c, p.s2, BASE);
  }

  // Taking the remainder once at the end is as good as after every byte.
  lemma {:induction false} DeferredModulo(s: Sums, data: seq<Byte>)
    requires Reduced(s)
    ensures PerByte(s, data).s1 == Plain(s, data).s1 % BASE
    ensures PerByte(s, data).s2 == Plain(s, data).s2 % BASE
  {
    if data != [] {
      var rest, c := data[..|data| - 1], data[|data| - 1];
      DeferredModulo(s, rest);
      var p := Plain(s, rest);
      StepDeferred(PerByte(s, rest), p, c);
    }
  }

  // Within a block of 5552 bytes the plain sums stay below 2 to the 32.
  lemma {:induction false} PlainBound(s: Sums, data: seq<Byte>)
    requires Reduced(s)
    ensures Plain(s, data).s1 <= s.s1 + 255 * |data|
    ensures 2 * Plain(s, data).s2 <= 2 * (BASE - 1) * (|data| + 1) + 255 * |data| * (|data| + 1)
  {
    if data != [] {
      PlainBound(s, data[..|data| - 1]);
      var n := |data|;
      assert 255 * (n - 1) * n + 2 * 255 * n == 255 * n * (n + 1);
    }
  }

  lemma MulMonotone(a: nat, b: nat, c: nat)
    requires b <= c
    ensures a * b <= a * c
  {
  }

  lemma BlockFits(n: nat)
    requires n <= BLOCK
    ensures 2 * (BASE - 1) * (n + 1) + 255 * n * (n + 1) < 2 * 0x1_0000_0000
    ensures BASE + 255 * n < 0x1_0000_0000
  {
    var square := n * (n + 1);
    assert square <= n * 5553 by {
      MulMonotone(n, n + 1, 5553);
    }
    assert 255 * n * (n + 1) == 255 * square;
  }

  lemma {:induction false} PerByteSplit(s: Sums, a: seq<Byte>, b: seq<Byte>)
    requires Reduced(s)
    ensures PerByte(s, a + b) == PerByte(PerByte(s, a), b)
    decreases |b|
  {
    if b == [] {
      assert a + b == a;
    } else {
      PerByteSplit(s, a, b[..|b| - 1]);
      assert (a + b)[..|a + b| - 1] == a + b[..|b| - 1];
    }
  }

  // ---------------------------------------------------------------- the loop

  function Unpack(check: U32): Sums {
    Sums(check as nat % 65536, check as nat / 65536)
  }

  // The 32-bit sums hold the plain sums of data[start..at].
  ghost predicate Holds(s: Sums, data: seq<Byte>, start: nat, at: nat, s1: U32, s2: U32) {
    start <= at <= |data| && Plain(s, data[start..at]) == Sums(s1 as nat, s2 as nat)
  }

  // One byte in 32-bit arithmetic; that it cannot wrap is part of the proof.
  method AddByte(s1: U32, s2: U32, data: seq<Byte>, at: nat, ghost start: nat, ghost s: Sums) returns (t1: U32, t2: U32)
    requires Reduced(s) && start <= at < |data| && at - start < BLOCK
    requires Holds(s, data, start, at, s1, s2)
    ensures Holds(s, data, start, at + 1, t1, t2)
  {
    ghost var more := data[start..at + 1];
    assert more[..|more| - 1] == data[start..at];
    PlainBound(s, more);
    BlockFits(|more|);
    t1 := s1 + data[at] as U32;
    t2 := s2 + t1;
  }

  // The unrolled part.
  method AddEight(s1: U32, s2: U32, data: seq<Byte>, at: nat, ghost start: nat, ghost s: Sums)
    returns (t1: U32, t2: U32)
    requires Reduced(s) && start <= at && at + 8 <= |data| && at + 8 - start <= BLOCK
    requires Holds(s, data, start, at, s1, s2)
    ensures Holds(s, data, start, at + 8, t1, t2)
  {
    hide Holds, Reduced;
    t1, t2 := AddByte(s1, s2, data, at, start, s);
    t1, t2 := AddByte(t1, t2, data, at + 1, start, s);
    t1, t2 := AddByte(t1, t2, data, at + 2, start, s);
    t1, t2 := AddByte(t1, t2, data, at + 3, start, s);
    t1, t2 := AddByte(t1, t2, data, at + 4, start, s);
    t1, t2 := AddByte(t1, t2, data, at + 5, start, s);
    t1, t2 := AddByte(t1, t2, data, at + 6, start, s);
    t1, t2 := AddByte(t1, t2, data, at + 7, start, s);
  }

  // One block: eight bytes at a time, then the rest one by one.
  method AddBlock(s1: U32, s2: U32, data: seq<Byte>, start: nat, blockLen: nat) returns (t1: U32, t2: U32)
    requires start + blockLen <= |data| && blockLen <= BLOCK
    requires Reduced(Sums(s1 as nat, s2 as nat))
    ensures Holds(Sums(s1 as nat, s2 as nat), data, start, start + blockLen, t1, t2)
  {
    ghost var s := Sums(s1 as nat, s2 as nat);
    t1, t2 := s1, s2;
    assert Holds(s, data, start, start, t1, t2);
    hide Holds, Reduced;
    var i: nat := 0;
    while i + 7 < blockLen
      invariant i <= blockLen && Holds(s, data, start, start + i, t1, t2)
    {
      t1, t2 := AddEight(t1, t2, data, start + i, start, s);
      i := i + 8;
    }
    while i < blockLen
      invariant i <= blockLen && Holds(s, data, start, start + i, t1, t2)
    {
      t1, t2 := AddByte(t1, t2, data, start + i, start, s);
      i := i + 1;
    }
  }

  lemma BlockDone(s: Sums, data: seq<Byte>, start: nat, len: nat, was: Sums, t1: U32, t2: U32)
    requires start + len <= |data| && Reduced(s) && Reduced(was)
    requires PerByte(s, data[..start]) == was && Holds(was, data, start, start + len, t1, t2)
    ensures PerByte(s, data[..start + len]) == Sums((t1 % 65521) as nat, (t2 % 65521) as nat)
  {
    hide Plain, PerByte;
    var part := data[start..start + len];
    DeferredModulo(was, part);
    PerByteSplit(s, data[..start], part);
    assert data[..start] + part == data[..start + len];
  }

  // The update after a call of the decompressor: a short block first, then whole ones.
  method Update(check: U32, data: seq<Byte>) returns (r: U32)
    requires Reduced(Unpack(check))
    ensures Reduced(Unpack(r)) && Unpack(r) == PerByte(Unpack(check), data)
  {
    ghost var s := Unpack(check);
    var s1, s2 := check % 65536, check / 65536;
    var bufLen := |data|;
    var blockLen := bufLen % BLOCK;
    assert PerByte(s, data[..0]) == s;
    hide Plain, PerByte, Holds;
    var start := 0;
    ghost var more: nat := bufLen / BLOCK;
    while bufLen > 0
      invariant 0 <= start && 0 <= bufLen == |data| - start && 0 <= blockLen <= BLOCK
      invariant bufLen > 0 ==> bufLen == blockLen + BLOCK * more
      invariant Reduced(Sums(s1 as nat, s2 as nat)) && PerByte(s, data[..start]) == Sums(s1 as nat, s2 as nat)
      decreases bufLen, BLOCK - blockLen
    {
      ghost var was := Sums(s1 as nat, s2 as nat);
      s1, s2 := AddBlock(s1, s2, data, start, blockLen);
      BlockDone(s, data, start, blockLen, was, s1, s2);
      s1, s2 := s1 % 65521, s2 % 65521;
      start := start + blockLen;
      bufLen := bufLen - blockLen;
      blockLen := 5552;
      more := if more > 0 then more - 1 else 0;
    }
    assert data[..start] == data;
    r := Pack(s1, s2);
  }

  function Pack(s1: U32, s2: U32): (r: U32)
    requires Reduced(Sums(s1 as nat, s2 as nat))
    ensures Unpack(r) == Sums(s1 as nat, s2 as nat)
  {
    s2 * 65536 + s1
  }

  // ---------------------------------------------------------------- across calls

  function Flatten(chunks: seq<seq<Byte>>): seq<Byte> {
    if chunks == [] then [] else chunks[0] + Flatten(chunks[1..])
  }

  // Whatever the split across calls, the final value is that of the whole output taken byte by byte.
  method UpdateAll(chunks: seq<seq<Byte>>) returns (r: U32)
    ensures Unpack(r) == PerByte(Sums(1, 0), Flatten(chunks))
  {
    r := 1;
    ghost var done := [];
    for i := 0 to |chunks|
      invariant Reduced(Unpack(r)) && done + Flatten(chunks[i..]) == Flatten(chunks)
      invariant Unpack(r) == PerByte(Sums(1, 0), done)
    {
      PerByteSplit(Sums(1, 0), done, chunks[i]);
      r := Update(r, chunks[i]);
      done := done + chunks[i];
      assert chunks[i..][1..] == chunks[i + 1..];
    }
    assert done == Flatten(chunks);
  }

  // ---------------------------------------------------------------- a known value

  lemma OneMore(data: seq<Byte>, i: nat, s1: nat, s2: nat)
    requires i < |data| && s1 < BASE && s2 < BASE && PerByte(Sums(1, 0), data[..i]) == Sums(s1, s2)
    ensures var t := (s1 + data[i]) % BASE; PerByte(Sums(1, 0), data[..i + 1]) == Sums(t, (s2 + t) % BASE)
  {
    assert data[..i + 1][..i] == data[..i];
  }

  // The nine letters of "Wikipedia".
  const LETTERS: seq<Byte> := [87, 105, 107, 105, 112, 101, 100, 105, 97]

  lemma LettersAre()
    ensures |LETTERS| == 9 && LETTERS[0] == 87 && LETTERS[1] == 105 && LETTERS[2] == 107 && LETTERS[3] == 105
    ensures LETTERS[4] == 112 && LETTERS[5] == 101 && LETTERS[6] == 100 && LETTERS[7] == 105 && LETTERS[8] == 97
  {
  }

  lemma NoBytes(data: seq<Byte>)
    ensures PerByte(Sums(1, 0), data[..0]) == Sums(1, 0)
  {
  }

  lemma KnownValue()
    ensures PerByte(Sums(1, 0), LETTERS) == Unpack(0x11E60398)
  {
    LettersAre();
    NoBytes(LETTERS);
    hide PerByte, LETTERS;
    OneMore(LETTERS, 0, 1, 0);
    OneMore(LETTERS, 1, 88, 88);
    OneMore(LETTERS, 2, 193, 281);
    OneMore(LETTERS, 3, 300, 581);
    OneMore(LETTERS, 4, 405, 986);
    OneMore(LETTERS, 5, 517, 1503);
    OneMore(LETTERS, 6, 618, 2121);
    OneMore(LETTERS, 7, 718, 2839);
    OneMore(LETTERS, 8, 823, 3662);
    assert LETTERS[..9] == LETTERS;
  }
}
