// Base32 as main/utils/util.c reads it (base32_to_bin) and as section 6 of RFC 4648 writes it: a run of
// characters is one number in base 32, and the bytes are that number in base 256.
module Base32 {
  import opened Bits

  const WORD32 := 0x1_0000_0000

  predicate IsDigit(c: char) {
    'a' <= c <= 'z' || 'A' <= c <= 'Z' || '2' <= c <= '7'
  }

  function Digit(c: char): (d: nat)
    requires IsDigit(c)
    ensures d < 32
  {
    if 'a' <= c <= 'z' then c as nat - 'a' as nat
    else if 'A' <= c <= 'Z' then c as nat - 'A' as nat
    else c as nat - '2' as nat + 26
  }

  ghost predicate AllDigits(s: string) {
    forall i :: 0 <= i < |s| ==> IsDigit(s[i])
  }

  function Value(s: string): nat
    requires AllDigits(s)
  {
    if s == [] then 0 else 32 * Value(s[..|s| - 1]) + Digit(s[|s| - 1])
  }

  function BytesOf(x: nat, n: nat): (r: seq<Byte>)
    ensures |r| == n
  {
    if n == 0 then [] else BytesOf(x / 256, n - 1) + [x % 256]
  }

  // Whole bytes of a run of digits; the bits left over at the end are dropped.
  function Bytes(s: string): (r: seq<Byte>)
    requires AllDigits(s)
    ensures |r| == 5 * |s| / 8
  {
    BytesOf(Shr(Value(s), 5 * |s| % 8), 5 * |s| / 8)
  }

  // Input is read up to a padding character or a NUL.
  function Meaningful(s: string): (m: string)
    ensures |m| <= |s| && m == s[..|m|]
    ensures forall i :: 0 <= i < |m| ==> m[i] != '=' && m[i] != '\0'
    ensures |m| < |s| ==> s[|m|] == '=' || s[|m|] == '\0'
  {
    if s == [] || s[0] == '=' || s[0] == '\0' then [] else [s[0]] + Meaningful(s[1..])
  }

  // What ends up in a buffer of `cap` bytes: nothing at all on a bad character or an overflow.
  ghost function Decoded(s: string, cap: nat): seq<Byte> {
    var m := Meaningful(s);
    if AllDigits(m) && 5 * |m| / 8 <= cap then Bytes(m) else []
  }

  lemma {:induction false} ShrOfSum(a: nat, t: nat, n: nat)
    ensures Shr(Pow2(n) * a + t, n) == a + Shr(t, n)
  {
    if n > 0 {
      Regroup(2, Pow2(n - 1), a);
      HalfSum(Pow2(n - 1) * a, t);
      ShrOfSum(a, t / 2, n - 1);
    }
  }

  lemma HalfSum(x: nat, t: nat)
    ensures (2 * x + t) / 2 == x + t / 2
  {
  }

  lemma WordPower(n: nat)
    requires n < 8
    ensures Pow2(n) * (256 * Pow2(24 - n)) == WORD32
  {
    Pow2Values();
    Pow2Sum(16, 16);
    Pow2Sum(n, 32 - n);
    Pow2Sum(8, 24 - n);
    assert Pow2(8) == 256;
  }

  // The byte taken from the wrapped 32-bit accumulator is the one the whole number has there.
  lemma WrappedByte(v: nat, n: nat)
    requires n < 8
    ensures Shr(v % WORD32, n) % 256 == Shr(v, n) % 256
  {
    hide Shr, Pow2;
    var q, t, p, k := v / WORD32, v % WORD32, Pow2(n), 256 * Pow2(24 - n);
    WordPower(n);
    assert p * k * q == p * (k * q);
    ShrOfSum(k * q, t, n);
    assert k * q == 256 * (Pow2(24 - n) * q);
    ByteOfSum(Pow2(24 - n) * q, Shr(t, n));
  }

  lemma ByteOfSum(a: nat, b: nat)
    ensures (256 * a + b) % 256 == b % 256
  {
    DivModUnique(256 * a + b, 256, a + b / 256, b % 256);
  }

  lemma WrapStep(v: nat, d: nat)
    requires d < 32
    ensures (32 * v + d) % WORD32 == (v % WORD32 * 32) % WORD32 + d
  {
    var q, t := v / WORD32, v % WORD32;
    var q', t' := t / 134217728, t % 134217728;
    DivModUnique(32 * v + d, WORD32, 32 * q + q', 32 * t' + d);
    DivModUnique(t * 32, WORD32, q', 32 * t');
  }

  lemma ShrSplit(a: nat, t: nat, n: nat)
    requires t < Pow2(n)
    ensures Shr(Pow2(n) * a + t, n) == a
  {
    ShrOfSum(a, t, n);
    ShrBound(t, n, 0);
  }

  // One more digit: the leftover bits grow by five, or a byte comes out.
  lemma DigitStep(v: nat, d: nat, n: nat)
    requires d < 32 && n < 8
    ensures n < 3 ==> Shr(32 * v + d, n + 5) == Shr(v, n)
    ensures n >= 3 ==> Shr(32 * v + d, n - 3) / 256 == Shr(v, n)
  {
    ShrSplit(v, d, 5);
    ShrShr(32 * v + d, 5, n);
    if n >= 3 {
      ShrShr(32 * v + d, n - 3, 8);
      var x := Shr(32 * v + d, n - 3);
      assert Pow2(8) == 256;
      ShrSplit(x / 256, x % 256, 8);
    }
  }

  lemma ValuePrefix(s: string, i: nat)
    requires i < |s| && AllDigits(s[..i + 1])
    ensures AllDigits(s[..i]) && IsDigit(s[i]) && Value(s[..i + 1]) == 32 * Value(s[..i]) + Digit(s[i])
  {
    var t := s[..i + 1];
    assert t[..i] == s[..i] && t[i] == s[i];
    assert forall k :: 0 <= k < i ==> s[..i][k] == t[k];
  }

  lemma AppendDigit(t: string, c: char)
    requires AllDigits(t) && IsDigit(c)
    ensures AllDigits(t + [c]) && Value(t + [c]) == 32 * Value(t) + Digit(c)
  {
    assert (t + [c])[..|t|] == t;
  }

  // `m` is the part before the stop; nothing before `i` is bad and `w` bytes are out.
  ghost predicate Reading(s: string, i: nat, tmp: nat, bits: nat, out: seq<Byte>) {
    && i <= |Meaningful(s)| && AllDigits(s[..i])
    && bits == 5 * i % 8 && |out| == 5 * i / 8 && tmp == Value(s[..i]) % WORD32
    && out == Bytes(s[..i])
  }

  lemma Bookkeeping(i: nat)
    ensures 5 * i % 8 < 3 ==> 5 * (i + 1) % 8 == 5 * i % 8 + 5 && 5 * (i + 1) / 8 == 5 * i / 8
    ensures 5 * i % 8 >= 3 ==> 5 * (i + 1) % 8 == 5 * i % 8 - 3 && 5 * (i + 1) / 8 == 5 * i / 8 + 1
  {
  }

  lemma MoreBytes(t: string, d: nat, u: string)
    requires AllDigits(t) && AllDigits(u) && |u| == |t| + 1 && d < 32 && Value(u) == 32 * Value(t) + d
    ensures 5 * |t| % 8 < 3 ==> Bytes(u) == Bytes(t)
    ensures 5 * |t| % 8 >= 3 ==> Bytes(u) == Bytes(t) + [Shr(Value(u), 5 * |t| % 8 - 3) % 256]
  {
    hide Shr, Value, IsDigit, BytesOf;
    var n := |t|;
    Bookkeeping(n);
    var r, q, r', q' := 5 * n % 8, 5 * n / 8, 5 * (n + 1) % 8, 5 * (n + 1) / 8;
    DigitStep(Value(t), d, r);
    assert Bytes(t) == BytesOf(Shr(Value(t), r), q);
    assert Bytes(u) == BytesOf(Shr(Value(u), r'), q');
    if r >= 3 {
      LastByte(Shr(Value(u), r'), Shr(Value(t), r), q);
    }
  }

  lemma LastByte(x: nat, y: nat, n: nat)
    requires x / 256 == y
    ensures BytesOf(x, n + 1) == BytesOf(y, n) + [x % 256]
  {
  }

  lemma ReadDigit(s: string, i: nat, tmp: nat, bits: nat, out: seq<Byte>)
    requires Reading(s, i, tmp, bits, out) && i < |Meaningful(s)| && IsDigit(s[i])
    ensures bits < 3 ==> Reading(s, i + 1, (tmp * 32) % WORD32 + Digit(s[i]), bits + 5, out)
    ensures bits >= 3 ==>
              var tmp' := (tmp * 32) % WORD32 + Digit(s[i]);
              Reading(s, i + 1, tmp', bits - 3, out + [Shr(tmp', bits - 3) % 256])
  {
    hide Bytes, Value, Meaningful, Shr, Digit, IsDigit;
    assert s[..i + 1] == s[..i] + [s[i]];
    ValuePrefix(s, i);
    var v, d := Value(s[..i]), Digit(s[i]);
    Bookkeeping(i);
    WrapStep(v, d);
    MoreBytes(s[..i], d, s[..i + 1]);
    if bits >= 3 {
      WrappedByte(32 * v + d, bits - 3);
    }
  }

  // The loop, with its 32-bit accumulator, on any input at all.
  method Base32ToBin(s: string, bin: array<Byte>) returns (written: nat)
    requires s != [] && bin.Length > 0
    modifies bin
    ensures written <= bin.Length && bin[..written] == Decoded(s, bin.Length)
  {
    hide Reading, Value, Bytes, Meaningful;
    ReadStarts(s);
    written := 0;
    var tmp: nat, bits: nat, i: nat := 0, 0, 0;
    assert bin[..0] == [];
    while i < |s| && s[i] != '\0'
      invariant i <= |s| && written <= bin.Length && Reading(s, i, tmp, bits, bin[..written])
    {
      if s[i] != '=' {
        ReadFacts(s, i, tmp, bits, bin[..written]);
      }
      if !IsDigit(s[i]) {
        if s[i] == '=' {
          break;
        }
        BadDigit(s, i);
        return 0;
      }
      ReadDigit(s, i, tmp, bits, bin[..written]);
      tmp := (tmp * 32) % WORD32 + Digit(s[i]);
      bits := bits + 5;
      if bits >= 8 {
        if written >= bin.Length {
          TooMany(s, i, bin.Length);
          return 0;
        }
        bits := bits - 8;
        ghost var was := bin[..written];
        bin[written] := Shr(tmp, bits) % 256;
        written := written + 1;
        assert bin[..written] == was + [Shr(tmp, bits) % 256];
      }
      i := i + 1;
    }
    ReadEnds(s, i, tmp, bits, bin[..written], bin.Length);
  }

  lemma ReadStarts(s: string)
    ensures Reading(s, 0, 0, 0, [])
  {
    assert s[..0] == [];
  }

  lemma ReadFacts(s: string, i: nat, tmp: nat, bits: nat, out: seq<Byte>)
    requires Reading(s, i, tmp, bits, out) && i < |s| && s[i] != '=' && s[i] != '\0'
    ensures i < |Meaningful(s)| && bits == 5 * i % 8 && |out| == 5 * i / 8
  {
  }

  lemma BadDigit(s: string, i: nat)
    requires i < |Meaningful(s)| && !IsDigit(s[i])
    ensures Decoded(s, 0) == [] && forall cap: nat :: Decoded(s, cap) == []
  {
    assert !IsDigit(Meaningful(s)[i]);
  }

  lemma TooMany(s: string, i: nat, cap: nat)
    requires i < |Meaningful(s)| && 5 * i / 8 >= cap && 5 * i % 8 >= 3
    ensures Decoded(s, cap) == []
  {
  }

  lemma ReadEnds(s: string, i: nat, tmp: nat, bits: nat, out: seq<Byte>, cap: nat)
    requires Reading(s, i, tmp, bits, out) && |out| <= cap
    requires i <= |s| && (i < |s| ==> s[i] == '=' || s[i] == '\0')
    ensures out == Decoded(s, cap)
  {
    var m := Meaningful(s);
    assert m == s[..i];
  }

  // ---------------------------------------------------------------- writing

  function Letter(d: nat): (c: char)
    requires d < 32
    ensures IsDigit(c) && Digit(c) == d && ('A' <= c <= 'Z' || '2' <= c <= '7')
  {
    if d < 26 then 'A' + d as char else '2' + (d - 26) as char
  }

  function Letters(x: nat, k: nat): (s: string)
    ensures |s| == k && forall i :: 0 <= i < k ==> 'A' <= s[i] <= 'Z' || '2' <= s[i] <= '7'
    ensures AllDigits(s)
  {
    if k == 0 then [] else Letters(x / 32, k - 1) + [Letter(x % 32)]
  }

  function Number(b: seq<Byte>): nat {
    if b == [] then 0 else 256 * Number(b[..|b| - 1]) + b[|b| - 1]
  }

  // Unpadded base32, zero bits filling the last character.
  function Encode(b: seq<Byte>): (s: string)
    ensures |s| == (8 * |b| + 4) / 5
    ensures AllDigits(s) && forall i :: 0 <= i < |s| ==> 'A' <= s[i] <= 'Z' || '2' <= s[i] <= '7'
  {
    var k := (8 * |b| + 4) / 5;
    Letters(Pow2(5 * k - 8 * |b|) * Number(b), k)
  }

  lemma {:induction false} NumberBound(b: seq<Byte>)
    ensures Number(b) < Pow2(8 * |b|)
  {
    if b != [] {
      NumberBound(b[..|b| - 1]);
      Pow2Sum(8, 8 * (|b| - 1));
      assert Pow2(8) == 256;
    }
  }

  lemma DivBound(x: nat, p: nat)
    requires x < 32 * p
    ensures x / 32 < p
  {
  }

  lemma {:induction false} LettersValue(x: nat, k: nat)
    requires x < Pow2(5 * k)
    ensures Value(Letters(x, k)) == x
  {
    if k > 0 {
      Pow2Sum(5, 5 * (k - 1));
      assert Pow2(5) == 32;
      var p := Pow2(5 * (k - 1));
      DivBound(x, p);
      hide Pow2, Letter, Value;
      LettersValue(x / 32, k - 1);
      AppendDigit(Letters(x / 32, k - 1), Letter(x % 32));
    }
  }

  lemma {:induction false} BytesOfNumber(b: seq<Byte>)
    ensures BytesOf(Number(b), |b|) == b
  {
    if b != [] {
      BytesOfNumber(b[..|b| - 1]);
      assert Number(b) / 256 == Number(b[..|b| - 1]) && Number(b) % 256 == b[|b| - 1];
    }
  }

  // Reading back what was written gives the same bytes.
  lemma EncodeDecodes(b: seq<Byte>, cap: nat)
    requires |b| <= cap
    ensures Decoded(Encode(b), cap) == b
  {
    hide Bytes, Encode;
    EncodeBytes(b);
    var s := Encode(b);
    assert Meaningful(s) == s;
  }

  lemma EncodeBytes(b: seq<Byte>)
    ensures 5 * |Encode(b)| / 8 == |b| && Bytes(Encode(b)) == b
  {
    hide BytesOf, Letters, Number, Value, Meaningful, Shr, Pow2, IsDigit;
    var n := |b|;
    var k := (8 * n + 4) / 5;
    var pad := 5 * k - 8 * n;
    EncodedValue(b, k, pad);
    assert 5 * k / 8 == n && 5 * k % 8 == pad;
    ShrOfSum(Number(b), 0, pad);
    ShrZero(pad);
    BytesOfNumber(b);
  }

  lemma EncodedValue(b: seq<Byte>, k: nat, pad: nat)
    requires 5 * k == 8 * |b| + pad
    ensures Value(Letters(Pow2(pad) * Number(b), k)) == Pow2(pad) * Number(b)
  {
    hide Letters, Number, Value, Pow2;
    NumberBound(b);
    Pow2Sum(pad, 8 * |b|);
    var p, q := Pow2(pad), Pow2(8 * |b|);
    assert p * Number(b) < p * q;
    LettersValue(p * Number(b), k);
  }

  lemma {:induction false} ShrZero(n: nat)
    ensures Shr(0, n) == 0
  {
    if n > 0 {
      ShrZero(n - 1);
    }
  }
}
