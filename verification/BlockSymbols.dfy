// Lengths and distances as symbols with extra bits (section 3.2.5 of RFC 1951): the encoder's tables and the
// decoder's undo each other.
module BlockSymbols {
  import opened Bits

  // ---------------------------------------------------------------- the encoder's tables, by ranges

  // s_tdefl_len_sym and s_tdefl_len_extra; m is the length less three.
  function LenSym(m: nat): (s: nat)
    requires m < 256
    ensures 257 <= s <= 285
  {
    if m < 8 then 257 + m
    else if m < 16 then 265 + (m - 8) / 2
    else if m < 32 then 269 + (m - 16) / 4
    else if m < 64 then 273 + (m - 32) / 8
    else if m < 128 then 277 + (m - 64) / 16
    else if m < 255 then 281 + (m - 128) / 32
    else 285
  }

  function LenExtra(m: nat): (n: nat)
    requires m < 256
    ensures n <= 5
  {
    if m < 8 then 0 else if m < 16 then 1 else if m < 32 then 2 else if m < 64 then 3
    else if m < 128 then 4 else if m < 255 then 5 else 0
  }

  // s_tdefl_small_dist_sym and s_tdefl_small_dist_extra; d is the distance less one.
  function SmallDistSym(d: nat): (s: nat)
    requires d < 512
    ensures s < 18
  {
    if d < 4 then d
    else if d < 8 then 4 + (d - 4) / 2
    else if d < 16 then 6 + (d - 8) / 4
    else if d < 32 then 8 + (d - 16) / 8
    else if d < 64 then 10 + (d - 32) / 16
    else if d < 128 then 12 + (d - 64) / 32
    else if d < 256 then 14 + (d - 128) / 64
    else 16 + (d - 256) / 128
  }

  function SmallDistExtra(d: nat): (n: nat)
    requires d < 512
    ensures n <= 7
  {
    if d < 4 then 0 else if d < 8 then 1 else if d < 16 then 2 else if d < 32 then 3
    else if d < 64 then 4 else if d < 128 then 5 else if d < 256 then 6 else 7
  }

  // s_tdefl_large_dist_sym and s_tdefl_large_dist_extra, indexed by the distance's high byte.
  function LargeDistSym(h: nat): (s: nat)
    requires h < 128
    ensures s < 30
  {
    if h < 2 then 0
    else if h < 4 then 18 + (h - 2)
    else if h < 8 then 20 + (h - 4) / 2
    else if h < 16 then 22 + (h - 8) / 4
    else if h < 32 then 24 + (h - 16) / 8
    else if h < 64 then 26 + (h - 32) / 16
    else 28 + (h - 64) / 32
  }

  function LargeDistExtra(h: nat): (n: nat)
    requires h < 128
    ensures n <= 13
  {
    if h < 2 then 0 else if h < 4 then 8 else if h < 8 then 9 else if h < 16 then 10
    else if h < 32 then 11 else if h < 64 then 12 else 13
  }

  function DistSym(d: nat): (s: nat)
    requires d < 32768
    ensures s < 30
  {
    if d < 512 then SmallDistSym(d) else LargeDistSym(d / 256)
  }

  function DistExtra(d: nat): (n: nat)
    requires d < 32768
    ensures n <= 13
  {
    if d < 512 then SmallDistExtra(d) else LargeDistExtra(d / 256)
  }

  // ---------------------------------------------------------------- the decoder's tables

  const LENGTH_BASE: seq<nat> := [
    3, 4, 5, 6, 7, 8, 9, 10, 11, 13, 15, 17, 19, 23, 27, 31,
    35, 43, 51, 59, 67, 83, 99, 115, 131, 163, 195, 227, 258, 0, 0]
  const LENGTH_EXTRA: seq<nat> := [
    0, 0, 0, 0, 0, 0, 0, 0, 1, 1, 1, 1, 2, 2, 2, 2, 3, 3, 3, 3, 4, 4, 4, 4, 5, 5, 5, 5, 0, 0, 0]
  const DIST_BASE: seq<nat> := [
    1, 2, 3, 4, 5, 7, 9, 13, 17, 25, 33, 49, 65, 97, 129, 193, 257, 385, 513, 769, 1025, 1537, 2049, 3073, 4097, 6145,
    8193, 12289, 16385, 24577, 0, 0]
  const DIST_EXTRA: seq<nat> := [
    0, 0, 0, 0, 1, 1, 2, 2, 3, 3, 4, 4, 5, 5, 6, 6, 7, 7, 8, 8, 9, 9, 10, 10, 11, 11, 12, 12, 13, 13, 0, 0]

  lemma TableSizes()
    ensures |LENGTH_BASE| == |LENGTH_EXTRA| == 31 && |DIST_BASE| == |DIST_EXTRA| == 32
  {
  }

  // ---------------------------------------------------------------- the round trips

  lemma {:induction false} LowAndShr(x: nat, n: nat)
    ensures Low(x, n) + Shr(x, n) * Pow2(n) == x
  {
    hide Low, Shr, Pow2;
    BitSplit(x, n);
    if n > 0 {
      LowAndShr(x / 2, n - 1);
      Doubled(Low(x / 2, n - 1), Shr(x / 2, n - 1), Pow2(n - 1));
    }
  }

  lemma BitSplit(x: nat, n: nat)
    ensures n == 0 ==> Low(x, n) == 0 && Shr(x, n) == x && Pow2(n) == 1
    ensures n > 0 ==> Low(x, n) == x % 2 + 2 * Low(x / 2, n - 1) && Shr(x, n) == Shr(x / 2, n - 1)
                      && Pow2(n) == 2 * Pow2(n - 1)
  {
  }

  lemma Doubled(a: nat, b: nat, p: nat)
    ensures 2 * (a + b * p) == 2 * a + b * (2 * p)
  {
  }

  lemma {:induction false} ShrDiv(x: nat, n: nat)
    requires n <= 7
    ensures Shr(x, n) == (if n == 0 then x else if n == 1 then x / 2 else if n == 2 then x / 4 else if n == 3 then x / 8
                          else if n == 4 then x / 16 else if n == 5 then x / 32 else if n == 6 then x / 64 else x / 128)
  {
    if n > 0 {
      ShrDiv(x / 2, n - 1);
    }
  }

  lemma ShrDivHigh(x: nat, n: nat)
    requires 8 <= n <= 13
    ensures Shr(x, n) == (if n == 8 then x / 256 else if n == 9 then x / 512 else if n == 10 then x / 1024
                          else if n == 11 then x / 2048 else if n == 12 then x / 4096 else x / 8192)
  {
    hide Shr;
    ShrShr(x, 7, n - 7);
    ShrDiv(x, 7);
    ShrDiv(x / 128, n - 7);
  }

  lemma SmallPowers()
    ensures Pow2(0) == 1 && Pow2(1) == 2 && Pow2(2) == 4 && Pow2(3) == 8 && Pow2(4) == 16 && Pow2(5) == 32
    ensures Pow2(6) == 64 && Pow2(7) == 128 && Pow2(8) == 256 && Pow2(9) == 512 && Pow2(10) == 1024
    ensures Pow2(11) == 2048 && Pow2(12) == 4096 && Pow2(13) == 8192
  {
  }

  // From eight on, a length's symbol is four times its extra bits and what is left above them.
  lemma LengthShape(m: nat)
    requires 8 <= m < 255
    ensures 1 <= LenExtra(m) && 4 <= Shr(m, LenExtra(m)) < 8
    ensures LenSym(m) - 257 == 4 * LenExtra(m) + Shr(m, LenExtra(m))
  {
    ShrDiv(m, LenExtra(m));
  }

  lemma LengthRow(k: nat)
    requires k < 31
    ensures |LENGTH_BASE| == |LENGTH_EXTRA| == 31
    ensures k < 8 ==> LENGTH_EXTRA[k] == 0 && LENGTH_BASE[k] == k + 3
    ensures 8 <= k < 28 ==> LENGTH_EXTRA[k] == k / 4 - 1 && LENGTH_BASE[k] == 3 + (4 + k % 4) * Pow2(k / 4 - 1)
    ensures k == 28 ==> LENGTH_EXTRA[k] == 0 && LENGTH_BASE[k] == 258
  {
    SmallPowers();
  }

  // What the decoder makes of a length's symbol and extra bits is the length.
  lemma LengthReadsBack(m: nat)
    requires m < 256
    ensures |LENGTH_BASE| == |LENGTH_EXTRA| == 31
    ensures var k := LenSym(m) - 257;
            LENGTH_EXTRA[k] == LenExtra(m) && LENGTH_BASE[k] + Low(m, LenExtra(m)) == m + 3
  {
    LengthRow(LenSym(m) - 257);
    if 8 <= m < 255 {
      LengthShape(m);
      hide LenSym, LenExtra, LENGTH_BASE, LENGTH_EXTRA;
      LowAndShr(m, LenExtra(m));
    }
  }

  // From four on, a distance's symbol is twice its extra bits and what is left above them.
  lemma DistanceShape(d: nat)
    requires 4 <= d < 32768
    ensures 1 <= DistExtra(d) && 2 <= Shr(d, DistExtra(d)) < 4
    ensures DistSym(d) == 2 * DistExtra(d) + Shr(d, DistExtra(d))
  {
    hide Shr;
    if DistExtra(d) <= 7 {
      ShrDiv(d, DistExtra(d));
    } else {
      ShrDivHigh(d, DistExtra(d));
    }
  }

  lemma DistanceRow(k: nat)
    requires k < 30
    ensures |DIST_BASE| == |DIST_EXTRA| == 32
    ensures k < 4 ==> DIST_EXTRA[k] == 0 && DIST_BASE[k] == k + 1
    ensures k >= 4 ==> DIST_EXTRA[k] == k / 2 - 1 && DIST_BASE[k] == 1 + (2 + k % 2) * Pow2(k / 2 - 1)
  {
    hide Pow2, DIST_BASE, DIST_EXTRA;
    if k < 16 {
      LowDistanceRow(k);
    } else {
      HighDistanceRow(k);
    }
  }

  lemma LowDistanceRow(k: nat)
    requires k < 16
    ensures |DIST_BASE| == |DIST_EXTRA| == 32
    ensures k < 4 ==> DIST_EXTRA[k] == 0 && DIST_BASE[k] == k + 1
    ensures k >= 4 ==> DIST_EXTRA[k] == k / 2 - 1 && DIST_BASE[k] == 1 + (2 + k % 2) * Pow2(k / 2 - 1)
  {
    SmallPowers();
  }

  lemma HighDistanceRow(k: nat)
    requires 16 <= k < 30
    ensures |DIST_BASE| == |DIST_EXTRA| == 32
    ensures DIST_EXTRA[k] == k / 2 - 1 && DIST_BASE[k] == 1 + (2 + k % 2) * Pow2(k / 2 - 1)
  {
    SmallPowers();
  }

  // And of a distance's, the distance.
  lemma DistanceReadsBack(d: nat)
    requires d < 32768
    ensures |DIST_BASE| == |DIST_EXTRA| == 32
    ensures var k := DistSym(d);
            DIST_EXTRA[k] == DistExtra(d) && DIST_BASE[k] + Low(d, DistExtra(d)) == d + 1
  {
    DistanceRow(DistSym(d));
    if d >= 4 {
      DistanceShape(d);
      hide DistSym, DistExtra, DIST_BASE, DIST_EXTRA;
      LowAndShr(d, DistExtra(d));
    }
  }
}
