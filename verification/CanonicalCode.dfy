// Canonical Huffman codes (section 3.2.2 of RFC 1951) as both halves of miniz assign them, and
// the plain bit-at-a-time decoder that serves as the reference for the table-driven one.
module CanonicalCode {
  import opened Bits

  // How many of the first `n` symbols have code length `len`.
  function CountBelow(sizes: seq<nat>, n: nat, len: nat): nat
    requires n <= |sizes|
  {
    if n == 0 then 0 else CountBelow(sizes, n - 1, len) + (if sizes[n - 1] == len then 1 else 0)
  }

  function Count(sizes: seq<nat>, len: nat): nat {
    CountBelow(sizes, |sizes|, len)
  }

  // The first code of each length; at 16 this is the decoder's Kraft total.
  function FirstCode(sizes: seq<nat>, len: nat): nat {
    if len <= 1 then 0 else 2 * (FirstCode(sizes, len - 1) + Count(sizes, len - 1))
  }

  // No code length above 15 and no over-subscription.
  ghost predicate Fits(sizes: seq<nat>) {
    (forall i :: 0 <= i < |sizes| ==> sizes[i] <= 15) && FirstCode(sizes, 16) <= 65536
  }

  ghost predicate Complete(sizes: seq<nat>) {
    (forall i :: 0 <= i < |sizes| ==> sizes[i] <= 15) && FirstCode(sizes, 16) == 65536
  }

  predicate Used(sizes: seq<nat>, s: nat) {
    s < |sizes| && sizes[s] > 0
  }

  function Code(sizes: seq<nat>, s: nat): nat
    requires Used(sizes, s)
  {
    FirstCode(sizes, sizes[s]) + CountBelow(sizes, s, sizes[s])
  }

  // The code as transmitted, first bit in the lowest position.
  function Wire(sizes: seq<nat>, s: nat): nat
    requires Used(sizes, s)
  {
    Reverse(Code(sizes, s), sizes[s])
  }

  // The bit buffer starts with the code of symbol `s`.
  ghost predicate Starts(sizes: seq<nat>, s: nat, bits: nat) {
    Used(sizes, s) && Low(bits, sizes[s]) == Wire(sizes, s)
  }

  lemma {:induction false} CountMonotone(sizes: seq<nat>, a: nat, b: nat, len: nat)
    requires a <= b <= |sizes|
    ensures CountBelow(sizes, a, len) <= CountBelow(sizes, b, len)
  {
    if a < b {
      CountMonotone(sizes, a, b - 1, len);
    }
  }

  // Codes of one length stay below the next free one.
  lemma CodeRange(sizes: seq<nat>, s: nat)
    requires Used(sizes, s)
    ensures FirstCode(sizes, sizes[s]) <= Code(sizes, s) < FirstCode(sizes, sizes[s]) + Count(sizes, sizes[s])
  {
    CountMonotone(sizes, s + 1, |sizes|, sizes[s]);
  }

  lemma {:induction false} LengthFits(sizes: seq<nat>, len: nat)
    requires Fits(sizes) && 1 <= len <= 15
    ensures FirstCode(sizes, len) + Count(sizes, len) <= Pow2(len)
    decreases 15 - len
  {
    Pow2Values();
    if len < 15 {
      LengthFits(sizes, len + 1);
    }
  }

  lemma CodeFits(sizes: seq<nat>, s: nat)
    requires Fits(sizes) && Used(sizes, s)
    ensures Code(sizes, s) < Pow2(sizes[s])
  {
    CodeRange(sizes, s);
    LengthFits(sizes, sizes[s]);
  }

  lemma WireStartsItself(sizes: seq<nat>, s: nat)
    requires Used(sizes, s)
    ensures Starts(sizes, s, Wire(sizes, s))
  {
    LowSmall(Wire(sizes, s), sizes[s]);
  }

  // A longer code, cut to `len` bits, lies beyond every code of length `len`.
  lemma {:induction false} CutBeyond(sizes: seq<nat>, code: nat, len: nat, extra: nat)
    requires len >= 1 && extra >= 1 && code >= FirstCode(sizes, len + extra)
    ensures Shr(code, extra) >= FirstCode(sizes, len) + Count(sizes, len)
  {
    if extra > 1 {
      CutBeyond(sizes, code / 2, len, extra - 1);
    } else {
      assert Shr(code, 1) == Shr(code / 2, 0);
    }
  }

  // Two different symbols never start the same bit string.
  lemma PrefixFree(sizes: seq<nat>, s: nat, t: nat, bits: nat)
    requires Fits(sizes)
    requires Starts(sizes, s, bits) && Starts(sizes, t, bits)
    ensures s == t
  {
    if s != t {
      if sizes[s] <= sizes[t] {
        PrefixFreeOrdered(sizes, s, t, bits);
      } else {
        PrefixFreeOrdered(sizes, t, s, bits);
      }
    }
  }

  lemma PrefixFreeOrdered(sizes: seq<nat>, s: nat, t: nat, bits: nat)
    requires Fits(sizes)
    requires Used(sizes, s) && Used(sizes, t) && s != t && sizes[s] <= sizes[t]
    ensures !(Starts(sizes, s, bits) && Starts(sizes, t, bits))
  {
    if Starts(sizes, s, bits) && Starts(sizes, t, bits) {
      CutIsCode(sizes, s, t, bits);
      CodeApart(sizes, s, t);
    }
  }

  // If both start the same bits, the shorter code is the longer one cut short.
  lemma CutIsCode(sizes: seq<nat>, s: nat, t: nat, bits: nat)
    requires Fits(sizes) && Starts(sizes, s, bits) && Starts(sizes, t, bits) && sizes[s] <= sizes[t]
    ensures Shr(Code(sizes, t), sizes[t] - sizes[s]) == Code(sizes, s)
  {
    var l, k := sizes[s], sizes[t];
    var c, d := Code(sizes, s), Code(sizes, t);
    LowLow(bits, l, k);
    ReversePrefix(d, k, l);
    ReverseInjective(c, Shr(d, k - l), l);
    CodeFits(sizes, s);
    CodeFits(sizes, t);
    ShrBound(d, k - l, l);
    LowSmall(c, l);
    LowSmall(Shr(d, k - l), l);
  }

  lemma CodeApart(sizes: seq<nat>, s: nat, t: nat)
    requires Used(sizes, s) && Used(sizes, t) && s != t && sizes[s] <= sizes[t]
    ensures Shr(Code(sizes, t), sizes[t] - sizes[s]) != Code(sizes, s)
  {
    var l, k := sizes[s], sizes[t];
    CodeRange(sizes, s);
    CodeRange(sizes, t);
    if l < k {
      CutBeyond(sizes, Code(sizes, t), l, k - l);
    } else if s < t {
      CountMonotone(sizes, s + 1, t, l);
    } else {
      CountMonotone(sizes, t + 1, s, l);
    }
  }

  // The symbol holding a given rank among those of one length.
  function Ranked(sizes: seq<nat>, n: nat, len: nat, rank: nat): (s: nat)
    requires n <= |sizes| && rank < CountBelow(sizes, n, len)
    ensures s < n && sizes[s] == len && CountBelow(sizes, s, len) == rank
  {
    if sizes[n - 1] == len && CountBelow(sizes, n - 1, len) == rank then n - 1
    else Ranked(sizes, n - 1, len, rank)
  }

  // Read one bit at a time, most significant code bit first, until the value names a symbol.
  function PlainDecode(sizes: seq<nat>, bits: nat, len: nat): (r: (nat, nat))
    requires 1 <= len <= 16
    ensures len <= r.1 <= 16
    ensures r.1 < 16 ==> r.0 < |sizes| && sizes[r.0] == r.1
    decreases 16 - len
  {
    if len == 16 then (0, 16)
    else
      var code := Reverse(bits, len);
      if FirstCode(sizes, len) <= code < FirstCode(sizes, len) + Count(sizes, len)
      then (Ranked(sizes, |sizes|, len, code - FirstCode(sizes, len)), len)
      else PlainDecode(sizes, bits, len + 1)
  }

  lemma {:induction false} ReverseTwice(code: nat, len: nat)
    ensures Reverse(Reverse(code, len), len) == Low(code, len)
  {
    if len > 0 {
      var bit, rest := Shr(code, len - 1) % 2, Reverse(code, len - 1);
      var top := if bit == 1 then Pow2(len - 1) else 0;
      assert Low(code, len) == Low(code, len - 1) + top by { LowTop(code, len - 1); }
      assert Reverse(bit + 2 * rest, len) == top + Reverse(rest, len - 1) by { ReverseStep(bit, rest, len - 1); }
      ReverseTwice(code, len - 1);
    }
  }

  lemma {:induction false} ReverseStep(bit: nat, x: nat, len: nat)
    requires bit < 2
    ensures Reverse(bit + 2 * x, len + 1) == (if bit == 1 then Pow2(len) else 0) + Reverse(x, len)
  {
    if len > 0 {
      ReverseStep(bit, x, len - 1);
      assert (bit + 2 * x) / 2 == x;
      assert Shr(bit + 2 * x, len) == Shr(x, len - 1);
    }
  }

  lemma {:induction false} ReverseLow(x: nat, len: nat, k: nat)
    requires k <= len
    ensures Reverse(Low(x, len), k) == Reverse(x, k)
  {
    if k > 0 {
      ReverseLow(x, len, k - 1);
      ShrLow(x, len, k - 1);
    }
  }

  // Starting with a symbol is the same as its code being the next bits read most significant first.
  lemma StartsIsCode(sizes: seq<nat>, s: nat, bits: nat)
    requires Fits(sizes) && Used(sizes, s)
    ensures Starts(sizes, s, bits) <==> Reverse(bits, sizes[s]) == Code(sizes, s)
  {
    var l := sizes[s];
    CodeFits(sizes, s);
    ReverseTwice(Code(sizes, s), l);
    ReverseTwice(bits, l);
    ReverseLow(bits, l, l);
    LowSmall(Code(sizes, s), l);
  }

  // The plain decoder returns exactly the symbol the bits start with.
  lemma PlainDecodesStart(sizes: seq<nat>, s: nat, bits: nat)
    requires Fits(sizes) && Starts(sizes, s, bits)
    ensures PlainDecode(sizes, bits, 1) == (s, sizes[s])
  {
    PlainFinds(sizes, s, bits, 1);
  }

  lemma {:induction false} PlainFinds(sizes: seq<nat>, s: nat, bits: nat, len: nat)
    requires Fits(sizes) && Starts(sizes, s, bits) && 1 <= len <= sizes[s]
    ensures PlainDecode(sizes, bits, len) == (s, sizes[s])
    decreases 16 - len
  {
    var code := Reverse(bits, len);
    if FirstCode(sizes, len) <= code < FirstCode(sizes, len) + Count(sizes, len) {
      var t := Ranked(sizes, |sizes|, len, code - FirstCode(sizes, len));
      StartsIsCode(sizes, t, bits);
      PrefixFree(sizes, s, t, bits);
    } else {
      StartsIsCode(sizes, s, bits);
      CodeRange(sizes, s);
      PlainFinds(sizes, s, bits, len + 1);
    }
  }

  // With a complete code every bit string starts with some symbol.
  lemma {:induction false} CompleteCovers(sizes: seq<nat>, bits: nat, len: nat) returns (s: nat)
    requires Complete(sizes) && 1 <= len <= 15
    requires Reverse(bits, len) >= FirstCode(sizes, len)
    ensures Starts(sizes, s, bits)
    decreases 15 - len
  {
    Pow2Values();
    var code := Reverse(bits, len);
    if code < FirstCode(sizes, len) + Count(sizes, len) {
      s := Ranked(sizes, |sizes|, len, code - FirstCode(sizes, len));
      StartsIsCode(sizes, s, bits);
    } else {
      s := CompleteCovers(sizes, bits, len + 1);
    }
  }

  // At most one symbol in use: the shape the decoder lets through without the Kraft test.
  ghost predicate AtMostOneUsed(sizes: seq<nat>) {
    forall s, t :: Used(sizes, s) && Used(sizes, t) ==> s == t
  }

  function CountUsed(sizes: seq<nat>, n: nat): nat
    requires n <= |sizes|
  {
    if n == 0 then 0 else CountUsed(sizes, n - 1) + (if sizes[n - 1] > 0 then 1 else 0)
  }
}
