// The tables of libjade/miniz.c against the text of RFC 1951: what the decoder makes of the bits in a header, of length
// and distance symbols, and of the fixed code, in the standard's own arithmetic.
module DeflateFormat {
  import opened Bits
  import opened CanonicalCode
  import opened BlockSymbols
  import opened LzCodes
  import opened BlockFormat
  import opened BlockHeader
  import R = CodeLengthRle

  // ---------------------------------------------------------------- the lengths of the code for lengths

  // Where length k stands in a header: 16, 17, 18, 0, 8, 7, 9, 6, 10, ... (section 3.2.7).
  function PlaceOf(k: nat): nat
    requires k < 19
  {
    if k == 0 then 3 else if k < 8 then 19 - 2 * k else if k < 16 then 2 * k - 12 else k - 16
  }

  lemma PlacesAre(k: nat)
    requires k < 19
    ensures |PLACE| == 19 && PLACE[k] == PlaceOf(k) < 19
  {
  }

  // From the i-th on: each length is the three bits at its place, or stays as it was if it is not sent.
  lemma {:induction false} LengthsFrom(i: nat, n: nat, cl: seq<nat>, input: Input)
    requires |cl| == CL_CODES && i <= n <= CL_CODES && forall k :: 0 <= k < CL_CODES ==> cl[k] < 8
    ensures input.count < 3 * (n - i) ==> ReadLengths(i, n, cl, input).Failed?
    ensures input.count >= 3 * (n - i) ==>
              var r := ReadLengths(i, n, cl, input);
              && r.Read? && r.rest == Skip(input, 3 * (n - i))
              && forall k :: 0 <= k < 19 ==>
                   r.value[k] == if i <= PlaceOf(k) < n then Low(Shr(input.bits, 3 * (PlaceOf(k) - i)), 3) else cl[k]
    decreases n - i
  {
    hide SWIZZLE, PLACE, PlaceOf, Shr, Low;
    SwizzleSizes();
    ShrNone(input.bits);
    if i < n {
      ThreeBits();
      if input.count >= 3 {
        Swizzled(i);
        PlacesAre(SWIZZLE[i]);
        var next := Skip(input, 3);
        LengthsFrom(i + 1, n, cl[SWIZZLE[i] := Low(input.bits, 3)], next);
        forall k | 0 <= k < 19 && i < PlaceOf(k)
          ensures Shr(next.bits, 3 * (PlaceOf(k) - (i + 1))) == Shr(input.bits, 3 * (PlaceOf(k) - i))
        {
          ShrShr(input.bits, 3, 3 * (PlaceOf(k) - (i + 1)));
        }
        ShrShr(input.bits, 3, 3 * (n - i) - 3);
        forall k | 0 <= k < 19 && PlaceOf(k) == i ensures k == SWIZZLE[i] {
          PlacesAre(k);
          Swizzled(k);
        }
      }
    }
  }

  lemma ShrNone(x: nat)
    ensures Shr(x, 0) == x
  {
  }

  // On any input: of n lengths sent, length k is the three bits at three times its place; those not sent are zero.
  lemma HeaderPlaces(n: nat, input: Input)
    requires n <= 19
    ensures var r := ReadLengths(0, n, R.Copies(0, 19), input);
            && (r.Read? <==> input.count >= 3 * n)
            && (r.Read? ==>
                  && r.rest == Skip(input, 3 * n) && |r.value| == 19
                  && forall k :: 0 <= k < 19 ==>
                       r.value[k] == if PlaceOf(k) < n then Low(Shr(input.bits, 3 * PlaceOf(k)), 3) else 0)
  {
    hide ReadLengths, PlaceOf, Shr, Low;
    LengthsFrom(0, n, R.Copies(0, 19), input);
  }

  // ---------------------------------------------------------------- lengths and distances (section 3.2.5)

  function LengthBits(sym: nat): nat {
    if sym < 265 || sym == 285 then 0 else (sym - 261) / 4
  }

  function LengthFrom(sym: nat): nat
    requires 257 <= sym <= 285
  {
    if sym < 265 then sym - 254 else if sym == 285 then 258 else (4 + (sym - 261) % 4) * Pow2(LengthBits(sym)) + 3
  }

  function DistanceBits(sym: nat): nat {
    if sym < 4 then 0 else (sym - 2) / 2
  }

  function DistanceFrom(sym: nat): nat {
    if sym < 4 then sym + 1 else (2 + sym % 2) * Pow2(DistanceBits(sym)) + 1
  }

  lemma LengthTable(sym: nat)
    requires 257 <= sym <= 285
    ensures |LENGTH_BASE| == |LENGTH_EXTRA| == 31
    ensures LENGTH_EXTRA[sym - 257] == LengthBits(sym) && LENGTH_BASE[sym - 257] == LengthFrom(sym)
  {
    assert Pow2(1) == 2 && Pow2(2) == 4 && Pow2(3) == 8 && Pow2(4) == 16 && Pow2(5) == 32;
    hide Pow2;
  }

  lemma DistancePowers()
    ensures Pow2(0) == 1 && Pow2(1) == 2 && Pow2(2) == 4 && Pow2(3) == 8 && Pow2(4) == 16 && Pow2(5) == 32
    ensures Pow2(6) == 64 && Pow2(7) == 128 && Pow2(8) == 256 && Pow2(9) == 512 && Pow2(10) == 1024
    ensures Pow2(11) == 2048 && Pow2(12) == 4096 && Pow2(13) == 8192
  {
  }

  lemma DistanceTable(sym: nat)
    requires sym < 30
    ensures |DIST_BASE| == |DIST_EXTRA| == 32
    ensures DIST_EXTRA[sym] == DistanceBits(sym) && DIST_BASE[sym] == DistanceFrom(sym)
  {
    DistancePowers();
    hide Pow2;
  }

  // On any input: what a length symbol stands for, with the bits behind it.
  lemma LengthSymbol(sym: nat, input: Input)
    requires 257 <= sym <= 285
    ensures ReadLength(sym, input) ==
            if input.count < LengthBits(sym) then Failed
            else Read(LengthFrom(sym) + Low(input.bits, LengthBits(sym)), Skip(input, LengthBits(sym)))
  {
    LengthTable(sym);
    hide LENGTH_BASE, LENGTH_EXTRA, LengthBits, LengthFrom, Low, Shr;
  }

  lemma DistanceSymbol(dist: seq<nat>, input: Input)
    requires 0 < |dist| <= DIST_SYMBOLS
    ensures var s, r := ReadSymbol(dist, input), ReadDistance(dist, input);
            && (s.Failed? ==> r.Failed?)
            && (s.Read? && s.value < 30 ==>
                  r == if s.rest.count < DistanceBits(s.value) then Failed
                       else Read(DistanceFrom(s.value) + Low(s.rest.bits, DistanceBits(s.value)),
                                 Skip(s.rest, DistanceBits(s.value))))
  {
    hide ReadSymbol;
    var s := ReadSymbol(dist, input);
    if s.Read? && s.value < 30 {
      DistanceTable(s.value);
    }
    hide DIST_BASE, DIST_EXTRA, DistanceBits, DistanceFrom, Low, Shr;
  }

  // ---------------------------------------------------------------- the fixed code (section 3.2.6)

  lemma StaticAt(s: nat)
    requires s < 288
    ensures |STATIC_LIT| == 288
    ensures STATIC_LIT[s] == if s < 144 then 8 else if s < 256 then 9 else if s < 280 then 7 else 8
  {
  }

  lemma {:induction false} StaticBelow(s: nat)
    requires s <= 288
    ensures |STATIC_LIT| == 288
    ensures CountBelow(STATIC_LIT, s, 8) == if s < 144 then s else if s < 280 then 144 else s - 136
    ensures CountBelow(STATIC_LIT, s, 9) == if s < 144 then 0 else if s < 256 then s - 144 else 112
    ensures CountBelow(STATIC_LIT, s, 7) == if s < 256 then 0 else if s < 280 then s - 256 else 24
  {
    StaticSize();
    hide STATIC_LIT;
    if s > 0 {
      StaticBelow(s - 1);
      StaticAt(s - 1);
    }
  }

  lemma StaticSize()
    ensures |STATIC_LIT| == 288
  {
  }

  // The codes of the literal and length alphabet.
  lemma FixedCode(s: nat)
    requires s < 288
    ensures Used(STATIC_LIT, s)
    ensures STATIC_LIT[s] == if s < 144 then 8 else if s < 256 then 9 else if s < 280 then 7 else 8
    ensures Code(STATIC_LIT, s) == if s < 144 then 0x30 + s else if s < 256 then 0x190 + (s - 144)
                                   else if s < 280 then s - 256 else 0xC0 + (s - 280)
  {
    StaticAt(s);
    StaticBelow(s);
    StaticFirst(STATIC_LIT[s]);
    hide STATIC_LIT, STATIC_DIST, FirstCode, CountBelow;
  }

  lemma {:induction false} FixedBelow(s: nat)
    requires s <= 32
    ensures |STATIC_DIST| == 32 && CountBelow(STATIC_DIST, s, 5) == s
  {
    if s > 0 {
      FixedBelow(s - 1);
    }
  }

  // Distance symbols are sent as five-bit numbers.
  lemma FixedDistanceCode(s: nat)
    requires s < 32
    ensures Used(STATIC_DIST, s) && STATIC_DIST[s] == 5 && Code(STATIC_DIST, s) == s
  {
    FixedBelow(s);
    StaticFirst(5);
    hide FirstCode, CountBelow, STATIC_LIT;
  }
}
