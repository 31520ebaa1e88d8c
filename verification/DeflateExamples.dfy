// Streams another compressor writes, byte for byte, and what the decompressor of libjade/miniz.c makes of them.
module DeflateExamples {
  import opened Bits
  import opened BitStream
  import opened CanonicalCode
  import opened BlockSymbols
  import opened LzCodes
  import opened BlockFormat
  import opened BlockStored
  import opened BlockHeader
  import opened DeflateStream
  import opened DeflateFormat
  import opened DeflateReading
  import T = DeflateRoundTrip
  import R = CodeLengthRle

  // ---------------------------------------------------------------- a dynamic block

  const TEXT := "adbaaabadbaddbddadaaadabddbaaabadbaddbd"

  // What zlib makes of it at level 9, without a header.
  const BYTES: seq<Byte> := [
    0x55, 0x88, 0x37, 0x11, 0x00, 0x00, 0x0c, 0x84, 0xb4, 0xc2, 0xe1, 0x5f, 0x43,
    0x7e, 0xcd, 0x44, 0x21, 0x01, 0x19, 0xca, 0xa2, 0x65, 0xcc, 0xde, 0x3f]

  const OPS: seq<Op> := [
    Literal(97), Literal(100), Literal(98), Literal(97), Literal(97), Literal(97),
    Literal(98), Literal(97), Match(7, 3), Literal(100), Literal(100), Literal(98),
    Literal(100), Literal(100), Literal(97), Literal(100), Match(15, 3), Literal(100),
    Literal(97), Match(10, 3), Match(24, 13)]

  const CL: seq<nat> := [4, 0, 2, 4, 3, 0, 0, 0, 0, 0, 0, 0, 0, 0, 0, 0, 3, 3, 2]

  // Lengths of the codes used, zeros between them.
  const LIT_FRONT: seq<nat> := R.Copies(0, 97) + [2] + [2] + [0] + [2] + R.Copies(0, 138) + R.Copies(0, 17)
  const LIT: seq<nat> := LIT_FRONT + [4] + [3] + R.Copies(0, 8) + [4]
  const DIST: seq<nat> := R.Copies(0, 5) + [2] + R.Copies(2, 3)

  // ---------------------------------------------------------------- the codes of this block

  lemma Reversals2()
    ensures Reverse(0, 2) == 0 && Reverse(1, 2) == 2 && Reverse(2, 2) == 1 && Reverse(3, 2) == 3
  {
  }

  lemma Reversals3()
    ensures Reverse(4, 3) == 1 && Reverse(5, 3) == 5 && Reverse(6, 3) == 3
  {
  }

  lemma Reversals4()
    ensures Reverse(14, 4) == 7 && Reverse(15, 4) == 15
  {
  }

  lemma LitIs()
    ensures |LIT| == 267 && LIT[97] == 2 && LIT[98] == 2 && LIT[100] == 2 && LIT[256] == 4
    ensures LIT[257] == 3 && LIT[266] == 4
    ensures forall k :: 0 <= k < 267 && k !in {97, 98, 100, 256, 257, 266} ==> LIT[k] == 0
  {
  }

  lemma LitOrder()
    ensures Fits(LIT) && Gate(LIT)
    ensures CodeIs(LIT, 97, 0) && CodeIs(LIT, 98, 1) && CodeIs(LIT, 100, 2) && CodeIs(LIT, 257, 6)
    ensures CodeIs(LIT, 256, 14) && CodeIs(LIT, 266, 15)
  {
    LitIs();
    Powers();
    hide LIT, CodeIs, Fits, Gate, Pow2;
    CodeFirst(LIT, 97);
    CodeNext(LIT, 97, 98, 0, 1);
    CodeNext(LIT, 98, 100, 1, 2);
    CodeNext(LIT, 100, 257, 2, 6);
    CodeNext(LIT, 257, 256, 6, 14);
    CodeNext(LIT, 256, 266, 14, 15);
    CodeLast(LIT, 266, 15);
  }

  lemma LitCodes()
    ensures Has(LIT, 97, 2, 0) && Has(LIT, 98, 2, 2) && Has(LIT, 100, 2, 1) && Has(LIT, 256, 4, 7)
    ensures Has(LIT, 257, 3, 3) && Has(LIT, 266, 4, 15)
  {
    LitIs();
    LitOrder();
    Reversals2();
    Reversals3();
    Reversals4();
    hide LIT, CodeIs, Fits, Gate, Reverse, Has;
    HasIs(LIT, 97, 0, 0);
    HasIs(LIT, 98, 1, 2);
    HasIs(LIT, 100, 2, 1);
    HasIs(LIT, 256, 14, 7);
    HasIs(LIT, 257, 6, 3);
    HasIs(LIT, 266, 15, 15);
  }

  lemma DistIs()
    ensures |DIST| == 9 && DIST[5] == 2 && DIST[6] == 2 && DIST[7] == 2 && DIST[8] == 2
    ensures forall k :: 0 <= k < 9 && k !in {5, 6, 7, 8} ==> DIST[k] == 0
  {
  }

  lemma DistOrder()
    ensures Fits(DIST) && Gate(DIST)
    ensures CodeIs(DIST, 5, 0) && CodeIs(DIST, 6, 1) && CodeIs(DIST, 7, 2) && CodeIs(DIST, 8, 3)
  {
    DistIs();
    Powers();
    hide DIST, CodeIs, Fits, Gate, Pow2;
    CodeFirst(DIST, 5);
    CodeNext(DIST, 5, 6, 0, 1);
    CodeNext(DIST, 6, 7, 1, 2);
    CodeNext(DIST, 7, 8, 2, 3);
    CodeLast(DIST, 8, 3);
  }

  lemma DistCodes()
    ensures Has(DIST, 5, 2, 0) && Has(DIST, 6, 2, 2) && Has(DIST, 7, 2, 1) && Has(DIST, 8, 2, 3)
  {
    DistIs();
    DistOrder();
    Reversals2();
    hide DIST, CodeIs, Fits, Gate, Reverse, Has;
    HasIs(DIST, 5, 0, 0);
    HasIs(DIST, 6, 1, 2);
    HasIs(DIST, 7, 2, 1);
    HasIs(DIST, 8, 3, 3);
  }

  lemma ClIs()
    ensures |CL| == 19 && CL[0] == 4 && CL[2] == 2 && CL[3] == 4 && CL[4] == 3
    ensures CL[16] == 3 && CL[17] == 3 && CL[18] == 2
    ensures forall k :: 0 <= k < 19 && k !in {0, 2, 3, 4, 16, 17, 18} ==> CL[k] == 0
  {
  }

  lemma ClOrder()
    ensures Fits(CL) && Gate(CL)
    ensures CodeIs(CL, 2, 0) && CodeIs(CL, 18, 1) && CodeIs(CL, 4, 4) && CodeIs(CL, 16, 5)
    ensures CodeIs(CL, 17, 6) && CodeIs(CL, 0, 14) && CodeIs(CL, 3, 15)
  {
    ClIs();
    Powers();
    hide CL, CodeIs, Fits, Gate, Pow2;
    CodeFirst(CL, 2);
    CodeNext(CL, 2, 18, 0, 1);
    CodeNext(CL, 18, 4, 1, 4);
    CodeNext(CL, 4, 16, 4, 5);
    CodeNext(CL, 16, 17, 5, 6);
    CodeNext(CL, 17, 0, 6, 14);
    CodeNext(CL, 0, 3, 14, 15);
    CodeLast(CL, 3, 15);
  }

  lemma ClCodes()
    ensures Has(CL, 0, 4, 7) && Has(CL, 2, 2, 0) && Has(CL, 3, 4, 15) && Has(CL, 4, 3, 1)
    ensures Has(CL, 16, 3, 5) && Has(CL, 17, 3, 3) && Has(CL, 18, 2, 2)
  {
    ClIs();
    ClOrder();
    Reversals2();
    Reversals3();
    Reversals4();
    hide CL, CodeIs, Fits, Gate, Reverse, Has;
    HasIs(CL, 0, 14, 7);
    HasIs(CL, 2, 0, 0);
    HasIs(CL, 3, 15, 15);
    HasIs(CL, 4, 4, 1);
    HasIs(CL, 16, 5, 5);
    HasIs(CL, 17, 6, 3);
    HasIs(CL, 18, 1, 2);
  }

  // ---------------------------------------------------------------- its header

  // The lengths of the code for lengths: the first eight of them sent, then all sixteen.
  const CL_BEGUN: seq<nat> := [4, 0, 0, 0, 0, 0, 0, 0, 0, 0, 0, 0, 0, 0, 0, 0, 3, 3, 2]

  lemma HeaderBegins()
    ensures ReadLengths(0, 16, R.Copies(0, 19), Input(0x1fef6632d1650c8090a266bf21aff0e15a42060000089b, 183)) ==
            ReadLengths(8, 16, CL_BEGUN, Input(0x1fef6632d1650c8090a266bf21aff0e15a420600, 159))
  {
    Swizzles();
    hide ReadLengths, SWIZZLE;
    var c := R.Copies(0, 19);
    LengthSent(0, 16, c, 3, 0x3fdecc65a2ca19012144cd7e435fe1c2b4840c0000113, 180);
    c := c[16 := 3];
    LengthSent(1, 16, c, 3, 0x7fbd98cb4594320242899afc86bfc385690818000022, 177);
    c := c[17 := 3];
    LengthSent(2, 16, c, 2, 0xff7b31968b286404851335f90d7f870ad2103000004, 174);
    c := c[18 := 2];
    LengthSent(3, 16, c, 4, 0x1fef6632d1650c8090a266bf21aff0e15a420600000, 171);
    c := c[0 := 4];
    LengthSent(4, 16, c, 0, 0x3fdecc65a2ca19012144cd7e435fe1c2b4840c0000, 168);
    c := c[8 := 0];
    LengthSent(5, 16, c, 0, 0x7fbd98cb4594320242899afc86bfc385690818000, 165);
    c := c[7 := 0];
    LengthSent(6, 16, c, 0, 0xff7b31968b286404851335f90d7f870ad2103000, 162);
    c := c[9 := 0];
    LengthSent(7, 16, c, 0, 0x1fef6632d1650c8090a266bf21aff0e15a420600, 159);
    c := c[6 := 0];
    assert c == CL_BEGUN;
  }

  lemma HeaderLengths()
    ensures ReadLengths(0, 16, R.Copies(0, 19), Input(0x1fef6632d1650c8090a266bf21aff0e15a42060000089b, 183)) ==
            Read(CL, Input(0x1fef6632d1650c8090a266bf21aff0e15a, 135))
  {
    HeaderBegins();
    Swizzles();
    hide ReadLengths, SWIZZLE;
    var c := CL_BEGUN;
    LengthSent(8, 16, c, 0, 0x3fdecc65a2ca19012144cd7e435fe1c2b4840c0, 156);
    c := c[10 := 0];
    LengthSent(9, 16, c, 0, 0x7fbd98cb4594320242899afc86bfc385690818, 153);
    c := c[5 := 0];
    LengthSent(10, 16, c, 0, 0xff7b31968b286404851335f90d7f870ad2103, 150);
    c := c[11 := 0];
    LengthSent(11, 16, c, 3, 0x1fef6632d1650c8090a266bf21aff0e15a420, 147);
    c := c[4 := 3];
    LengthSent(12, 16, c, 0, 0x3fdecc65a2ca19012144cd7e435fe1c2b484, 144);
    c := c[12 := 0];
    LengthSent(13, 16, c, 4, 0x7fbd98cb4594320242899afc86bfc385690, 141);
    c := c[3 := 4];
    LengthSent(14, 16, c, 0, 0xff7b31968b286404851335f90d7f870ad2, 138);
    c := c[13 := 0];
    LengthSent(15, 16, c, 2, 0x1fef6632d1650c8090a266bf21aff0e15a, 135);
    c := c[2 := 2];
    assert c == CL;
    LengthsEnd(16, c, Input(0x1fef6632d1650c8090a266bf21aff0e15a, 135));
  }

  lemma Swizzles()
    ensures |SWIZZLE| == CL_CODES
    ensures SWIZZLE[0] == 16 && SWIZZLE[1] == 17 && SWIZZLE[2] == 18 && SWIZZLE[3] == 0 && SWIZZLE[4] == 8
    ensures SWIZZLE[5] == 7 && SWIZZLE[6] == 9 && SWIZZLE[7] == 6 && SWIZZLE[8] == 10 && SWIZZLE[9] == 5
    ensures SWIZZLE[10] == 11 && SWIZZLE[11] == 4 && SWIZZLE[12] == 12 && SWIZZLE[13] == 3 && SWIZZLE[14] == 13
    ensures SWIZZLE[15] == 2
  {
  }

  // The lengths of the other two codes, run by run.
  lemma FrontRuns()
    ensures ReadRuns(CL, [], 276, Input(0x1fef6632d1650c8090a266bf21aff0e15a, 135)) ==
            ReadRuns(CL, LIT_FRONT, 276, Input(0xff7b31968b286404851335f9, 98))
  {
    ClIs();
    ClCodes();
    RunPowers();
    hide ReadRuns, Has, CL, Pow2;
    CopyRun(CL, [], 276, 18, 2, 2, 86, 0xff7b31968b286404851335f90d7f870, 126);
    var o: seq<nat> := [] + R.Copies(0, 97);
    LengthRun(CL, o, 276, 2, 2, 0, 0x3fdecc65a2ca19012144cd7e435fe1c, 124);
    o := o + [2];
    LengthRun(CL, o, 276, 2, 2, 0, 0xff7b31968b286404851335f90d7f87, 122);
    o := o + [2];
    LengthRun(CL, o, 276, 0, 4, 7, 0xff7b31968b286404851335f90d7f8, 118);
    o := o + [0];
    LengthRun(CL, o, 276, 2, 2, 0, 0x3fdecc65a2ca19012144cd7e435fe, 116);
    o := o + [2];
    CopyRun(CL, o, 276, 18, 2, 2, 127, 0x1fef6632d1650c8090a266bf21a, 107);
    o := o + R.Copies(0, 138);
    CopyRun(CL, o, 276, 18, 2, 2, 6, 0xff7b31968b286404851335f9, 98);
    o := o + R.Copies(0, 17);
    assert o == LIT_FRONT;
  }

  lemma BackRuns()
    ensures ReadRuns(CL, LIT_FRONT, 276, Input(0xff7b31968b286404851335f9, 98)) ==
            Read(LIT + DIST, Input(0x7fbd98cb459432024, 69))
  {
    ClIs();
    ClCodes();
    RunPowers();
    hide ReadRuns, Has, CL, Pow2;
    LengthRun(CL, LIT_FRONT, 276, 4, 3, 1, 0x1fef6632d1650c8090a266bf, 95);
    var o: seq<nat> := LIT_FRONT + [4];
    LengthRun(CL, o, 276, 3, 4, 15, 0x1fef6632d1650c8090a266b, 91);
    o := o + [3];
    CopyRun(CL, o, 276, 17, 3, 3, 5, 0x7fbd98cb4594320242899, 85);
    o := o + R.Copies(0, 8);
    LengthRun(CL, o, 276, 4, 3, 1, 0xff7b31968b2864048513, 82);
    o := o + [4];
    CopyRun(CL, o, 276, 17, 3, 3, 2, 0x3fdecc65a2ca1901214, 76);
    o := o + R.Copies(0, 5);
    LengthRun(CL, o, 276, 2, 2, 0, 0xff7b31968b28640485, 74);
    o := o + [2];
    CopyRun(CL, o, 276, 16, 3, 5, 0, 0x7fbd98cb459432024, 69);
    o := o + R.Copies(2, 3);
    assert o == LIT + DIST;
    RunsEnd(CL, o, Input(0x7fbd98cb459432024, 69));
  }

  // ---------------------------------------------------------------- its operations

  lemma Ops20()
    ensures Reads(LIT, DIST, OPS, 20, 0x1fef, 15, 13, Input(0, 1))
  {
    OpsAre();
    LitCodes();
    DistCodes();
    LitIs();
    DistIs();
    DistancePowers();
    hide Reads, Has, LIT, DIST, OPS, Pow2;
    EndRead(LIT, DIST, OPS, 4, 7, 0, 1, 0);
    MatchRead(LIT, DIST, OPS, 20, 266, 4, 15, 0, 8, 2, 3, 7, 0x7, 5, 0, Input(0, 1));
  }

  lemma Ops15()
    requires Reads(LIT, DIST, OPS, 20, 0x1fef, 15, 13, Input(0, 1))
    ensures Reads(LIT, DIST, OPS, 15, 0x1fef6632d, 35, 22, Input(0, 1))
  {
    OpsAre();
    LitCodes();
    DistCodes();
    LitIs();
    DistIs();
    DistancePowers();
    hide Reads, Has, LIT, DIST, OPS, Pow2;
    MatchRead(LIT, DIST, OPS, 19, 257, 3, 3, 0, 6, 2, 2, 1, 0x1fef, 15, 13, Input(0, 1));
    LiteralRead(LIT, DIST, OPS, 18, 97, 2, 0, 0xff7b3, 22, 16, Input(0, 1));
    LiteralRead(LIT, DIST, OPS, 17, 100, 2, 1, 0x3fdecc, 24, 17, Input(0, 1));
    MatchRead(LIT, DIST, OPS, 16, 257, 3, 3, 0, 7, 2, 1, 2, 0xff7b31, 26, 18, Input(0, 1));
    LiteralRead(LIT, DIST, OPS, 15, 100, 2, 1, 0x7fbd98cb, 33, 21, Input(0, 1));
  }

  lemma Ops10()
    requires Reads(LIT, DIST, OPS, 15, 0x1fef6632d, 35, 22, Input(0, 1))
    ensures Reads(LIT, DIST, OPS, 10, 0x7fbd98cb459, 45, 27, Input(0, 1))
  {
    OpsAre();
    LitCodes();
    DistCodes();
    LitIs();
    DistIs();
    DistancePowers();
    hide Reads, Has, LIT, DIST, OPS, Pow2;
    LiteralRead(LIT, DIST, OPS, 14, 97, 2, 0, 0x1fef6632d, 35, 22, Input(0, 1));
    LiteralRead(LIT, DIST, OPS, 13, 100, 2, 1, 0x7fbd98cb4, 37, 23, Input(0, 1));
    LiteralRead(LIT, DIST, OPS, 12, 100, 2, 1, 0x1fef6632d1, 39, 24, Input(0, 1));
    LiteralRead(LIT, DIST, OPS, 11, 98, 2, 2, 0x7fbd98cb45, 41, 25, Input(0, 1));
    LiteralRead(LIT, DIST, OPS, 10, 100, 2, 1, 0x1fef6632d16, 43, 26, Input(0, 1));
  }

  lemma Ops5()
    requires Reads(LIT, DIST, OPS, 10, 0x7fbd98cb459, 45, 27, Input(0, 1))
    ensures Reads(LIT, DIST, OPS, 5, 0x1fef6632d1650c8, 59, 34, Input(0, 1))
  {
    OpsAre();
    LitCodes();
    DistCodes();
    LitIs();
    DistIs();
    DistancePowers();
    hide Reads, Has, LIT, DIST, OPS, Pow2;
    LiteralRead(LIT, DIST, OPS, 9, 100, 2, 1, 0x7fbd98cb459, 45, 27, Input(0, 1));
    MatchRead(LIT, DIST, OPS, 8, 257, 3, 3, 0, 5, 2, 0, 0, 0x1fef6632d165, 47, 28, Input(0, 1));
    LiteralRead(LIT, DIST, OPS, 7, 97, 2, 0, 0x7fbd98cb45943, 53, 31, Input(0, 1));
    LiteralRead(LIT, DIST, OPS, 6, 98, 2, 2, 0x1fef6632d1650c, 55, 32, Input(0, 1));
    LiteralRead(LIT, DIST, OPS, 5, 97, 2, 0, 0x7fbd98cb459432, 57, 33, Input(0, 1));
  }

  lemma Ops0()
    requires Reads(LIT, DIST, OPS, 5, 0x1fef6632d1650c8, 59, 34, Input(0, 1))
    ensures Reads(LIT, DIST, OPS, 0, 0x7fbd98cb459432024, 69, 39, Input(0, 1))
  {
    OpsAre();
    LitCodes();
    DistCodes();
    LitIs();
    DistIs();
    DistancePowers();
    hide Reads, Has, LIT, DIST, OPS, Pow2;
    LiteralRead(LIT, DIST, OPS, 4, 97, 2, 0, 0x1fef6632d1650c8, 59, 34, Input(0, 1));
    LiteralRead(LIT, DIST, OPS, 3, 97, 2, 0, 0x7fbd98cb4594320, 61, 35, Input(0, 1));
    LiteralRead(LIT, DIST, OPS, 2, 98, 2, 2, 0x1fef6632d1650c80, 63, 36, Input(0, 1));
    LiteralRead(LIT, DIST, OPS, 1, 100, 2, 1, 0x7fbd98cb45943202, 65, 37, Input(0, 1));
    LiteralRead(LIT, DIST, OPS, 0, 97, 2, 0, 0x1fef6632d1650c809, 67, 38, Input(0, 1));
  }

  lemma OpsAre()
    ensures |OPS| == 21
    ensures OPS[0] == Literal(97) && OPS[1] == Literal(100) && OPS[2] == Literal(98) && OPS[3] == Literal(97)
    ensures OPS[4] == Literal(97) && OPS[5] == Literal(97) && OPS[6] == Literal(98) && OPS[7] == Literal(97)
    ensures OPS[8] == Match(7, 3) && OPS[9] == Literal(100) && OPS[10] == Literal(100) && OPS[11] == Literal(98)
    ensures OPS[12] == Literal(100) && OPS[13] == Literal(100) && OPS[14] == Literal(97) && OPS[15] == Literal(100)
    ensures OPS[16] == Match(15, 3) && OPS[17] == Literal(100) && OPS[18] == Literal(97) && OPS[19] == Match(10, 3)
    ensures OPS[20] == Match(24, 13)
  {
  }

  // ---------------------------------------------------------------- the whole stream

  lemma Front()
    ensures InputOf(BYTES) == Input(0x3fdecc65a2ca19012144cd7e435fe1c2b4840c000011378855, 200)
    ensures ReadBits(1, Input(0x3fdecc65a2ca19012144cd7e435fe1c2b4840c000011378855, 200)) ==
            Read(1, Input(0x1fef6632d1650c8090a266bf21aff0e15a42060000089bc42a, 199))
    ensures ReadBits(2, Input(0x1fef6632d1650c8090a266bf21aff0e15a42060000089bc42a, 199)) ==
            Read(2, Input(0x7fbd98cb4594320242899afc86bfc3856908180000226f10a, 197))
    ensures ReadBits(5, Input(0x7fbd98cb4594320242899afc86bfc3856908180000226f10a, 197)) ==
            Read(10, Input(0x3fdecc65a2ca19012144cd7e435fe1c2b4840c0000113788, 192))
    ensures ReadBits(5, Input(0x3fdecc65a2ca19012144cd7e435fe1c2b4840c0000113788, 192)) ==
            Read(8, Input(0x1fef6632d1650c8090a266bf21aff0e15a42060000089bc, 187))
    ensures ReadBits(4, Input(0x1fef6632d1650c8090a266bf21aff0e15a42060000089bc, 187)) ==
            Read(12, Input(0x1fef6632d1650c8090a266bf21aff0e15a42060000089b, 183))
  {
    FrontSteps();
    hide InputOf, Pow2, ReadBits, Followed;
    BitsRead(1, 1, 0x1fef6632d1650c8090a266bf21aff0e15a42060000089bc42a, 199);
    BitsRead(2, 2, 0x7fbd98cb4594320242899afc86bfc3856908180000226f10a, 197);
    BitsRead(10, 5, 0x3fdecc65a2ca19012144cd7e435fe1c2b4840c0000113788, 192);
    BitsRead(8, 5, 0x1fef6632d1650c8090a266bf21aff0e15a42060000089bc, 187);
    BitsRead(12, 4, 0x1fef6632d1650c8090a266bf21aff0e15a42060000089b, 183);
  }

  lemma FrontSteps()
    ensures InputOf(BYTES) == Input(0x3fdecc65a2ca19012144cd7e435fe1c2b4840c000011378855, 200)
    ensures Followed(1, 0x1fef6632d1650c8090a266bf21aff0e15a42060000089bc42a, 1) ==
            0x3fdecc65a2ca19012144cd7e435fe1c2b4840c000011378855 && 1 < Pow2(1)
    ensures Followed(2, 0x7fbd98cb4594320242899afc86bfc3856908180000226f10a, 2) ==
            0x1fef6632d1650c8090a266bf21aff0e15a42060000089bc42a && 2 < Pow2(2)
    ensures Followed(10, 0x3fdecc65a2ca19012144cd7e435fe1c2b4840c0000113788, 5) ==
            0x7fbd98cb4594320242899afc86bfc3856908180000226f10a && 10 < Pow2(5)
    ensures Followed(8, 0x1fef6632d1650c8090a266bf21aff0e15a42060000089bc, 5) ==
            0x3fdecc65a2ca19012144cd7e435fe1c2b4840c0000113788 && 8 < Pow2(5)
    ensures Followed(12, 0x1fef6632d1650c8090a266bf21aff0e15a42060000089b, 4) ==
            0x1fef6632d1650c8090a266bf21aff0e15a42060000089bc && 12 < Pow2(4)
  {
    BytesValue();
    hide Bytes;
  }

  lemma BytesValue()
    ensures Bytes(BYTES, 0) == 0x3fdecc65a2ca19012144cd7e435fe1c2b4840c000011378855
  {
    hide Bytes, Pow2;
    LastByte(0x3f);
    FourBytes(0xa2, 0x65, 0xcc, 0xde, [0x3f]);
    var b5: seq<Byte> := [0xa2, 0x65, 0xcc, 0xde] + [0x3f];
    FourBytes(0x21, 0x01, 0x19, 0xca, b5);
    var b4: seq<Byte> := [0x21, 0x01, 0x19, 0xca] + b5;
    FourBytes(0x43, 0x7e, 0xcd, 0x44, b4);
    var b3: seq<Byte> := [0x43, 0x7e, 0xcd, 0x44] + b4;
    FourBytes(0xb4, 0xc2, 0xe1, 0x5f, b3);
    var b2: seq<Byte> := [0xb4, 0xc2, 0xe1, 0x5f] + b3;
    FourBytes(0x00, 0x00, 0x0c, 0x84, b2);
    var b1: seq<Byte> := [0x00, 0x00, 0x0c, 0x84] + b2;
    FourBytes(0x55, 0x88, 0x37, 0x11, b1);
    var b0: seq<Byte> := [0x55, 0x88, 0x37, 0x11] + b1;
    assert b0 == BYTES;
  }

  lemma SizesRead()
    ensures ReadSizes(267, 9, 16, Input(0x1fef6632d1650c8090a266bf21aff0e15a42060000089b, 183)) ==
            Read(Codes(LIT, DIST), Input(0x7fbd98cb459432024, 69))
  {
    HeaderLengths();
    FrontRuns();
    BackRuns();
    ClOrder();
    LitOrder();
    DistOrder();
    LitIs();
    DistIs();
    hide ReadLengths, ReadRuns, Gate, CL, LIT_FRONT, LIT, DIST, Fits;
    assert (LIT + DIST)[..267] == LIT && (LIT + DIST)[267..] == DIST;
  }

  lemma DynamicRead()
    ensures ReadDynamic(Input(0x7fbd98cb4594320242899afc86bfc3856908180000226f10a, 197)) ==
            Read(Codes(LIT, DIST), Input(0x7fbd98cb459432024, 69))
  {
    hide InputOf, ReadBits, ReadSizes, LIT, DIST, Tabled, Gate, BYTES;
    Front();
    SizesRead();
  }

  lemma HeaderRead()
    ensures ReadCodes(Input(0x1fef6632d1650c8090a266bf21aff0e15a42060000089bc42a, 199)) ==
            Read(Codes(LIT, DIST), Input(0x7fbd98cb459432024, 69))
  {
    hide InputOf, ReadBits, ReadDynamic, LIT, DIST, Tabled, BYTES;
    Front();
    DynamicRead();
  }

  // Read as the operations that stand for the text, in any room that is enough for it.
  lemma DynamicStream(room: nat)
    requires room >= 39
    ensures ReadStream(InputOf(BYTES), room) == Read(OPS, Input(0, 1))
    ensures |Expand(OPS)| == |TEXT| == 39 && forall i :: 0 <= i < 39 ==> Expand(OPS)[i] == TEXT[i] as nat
  {
    TextIs();
    HeaderRead();
    Ops20();
    Ops15();
    Ops10();
    Ops5();
    Ops0();
    Front();
    hide ReadBits, ReadCodes, ReadOps, ReadStored, InputOf, BYTES, LIT, DIST, OPS, TEXT, Expand, Tabled, ReadStream;
    StreamStep(InputOf(BYTES), 39);
    WholeOps(OPS);
    T.StreamRoom(InputOf(BYTES), 39, room);
  }

  const CODES: seq<Byte> := [
    97, 100, 98, 97, 97, 97, 98, 97, 100, 98, 97, 100, 100, 98, 100, 100, 97, 100, 97, 97,
    97, 100, 97, 98, 100, 100, 98, 97, 97, 97, 98, 97, 100, 98, 97, 100, 100, 98, 100]

  lemma CodesAre()
    ensures |CODES| == |TEXT| == 39 && forall i :: 0 <= i < 39 ==> CODES[i] == TEXT[i] as nat
  {
  }

  lemma FirstCodes()
    ensures |CODES| == 39
    ensures CODES[0] == 97 && CODES[1] == 100 && CODES[2] == 98 && CODES[3] == 97 && CODES[4] == 97
    ensures CODES[5] == 97 && CODES[6] == 98 && CODES[7] == 97 && CODES[8] == 100 && CODES[9] == 98
    ensures CODES[10] == 97 && CODES[11] == 100 && CODES[12] == 100
  {
  }

  lemma MiddleCodes()
    ensures |CODES| == 39
    ensures CODES[13] == 98 && CODES[14] == 100 && CODES[15] == 100 && CODES[16] == 97 && CODES[17] == 100
    ensures CODES[18] == 97 && CODES[19] == 97 && CODES[20] == 97 && CODES[21] == 100 && CODES[22] == 97
    ensures CODES[23] == 98 && CODES[24] == 100 && CODES[25] == 100
  {
  }

  lemma LastCodes()
    ensures |CODES| == 39
    ensures CODES[26] == 98 && CODES[27] == 97 && CODES[28] == 97 && CODES[29] == 97 && CODES[30] == 98
    ensures CODES[31] == 97 && CODES[32] == 100 && CODES[33] == 98 && CODES[34] == 97 && CODES[35] == 100
    ensures CODES[36] == 100 && CODES[37] == 98 && CODES[38] == 100
  {
  }

  lemma Told11()
    requires Told(OPS, 0, CODES, 0)
    ensures Told(OPS, 11, CODES, 13)
  {
    OpsAre();
    FirstCodes();
    MiddleCodes();
    LastCodes();
    hide Told, OPS, CODES;
    LiteralTold(OPS, 0, CODES, 0);
    LiteralTold(OPS, 1, CODES, 1);
    LiteralTold(OPS, 2, CODES, 2);
    LiteralTold(OPS, 3, CODES, 3);
    LiteralTold(OPS, 4, CODES, 4);
    LiteralTold(OPS, 5, CODES, 5);
    LiteralTold(OPS, 6, CODES, 6);
    LiteralTold(OPS, 7, CODES, 7);
    MatchTold(OPS, 8, CODES, 8, 7, 3);
    LiteralTold(OPS, 9, CODES, 11);
    LiteralTold(OPS, 10, CODES, 12);
  }

  lemma Told21()
    requires Told(OPS, 11, CODES, 13)
    ensures Told(OPS, 21, CODES, 39)
  {
    OpsAre();
    FirstCodes();
    MiddleCodes();
    LastCodes();
    hide Told, OPS, CODES;
    LiteralTold(OPS, 11, CODES, 13);
    LiteralTold(OPS, 12, CODES, 14);
    LiteralTold(OPS, 13, CODES, 15);
    LiteralTold(OPS, 14, CODES, 16);
    LiteralTold(OPS, 15, CODES, 17);
    MatchTold(OPS, 16, CODES, 18, 15, 3);
    LiteralTold(OPS, 17, CODES, 21);
    LiteralTold(OPS, 18, CODES, 22);
    MatchTold(OPS, 19, CODES, 23, 10, 3);
    MatchTold(OPS, 20, CODES, 26, 24, 13);
  }

  lemma TextIs()
    ensures |Expand(OPS)| == |TEXT| == 39 && forall i :: 0 <= i < 39 ==> Expand(OPS)[i] == TEXT[i] as nat
  {
    CodesAre();
    OpsAre();
    ExpandNothing();
    hide OPS, CODES, TEXT;
    assert OPS[..0] == [] && CODES[..0] == [];
    assert Told(OPS, 0, CODES, 0);
    hide Told;
    Told11();
    Told21();
    AllTold(OPS, CODES);
  }

  // ---------------------------------------------------------------- blocks with the fixed code, and a stored one

  // "ab", flushed, and "c", as zlib sends them: a block with the fixed code, an empty stored one, and the last.
  const FLUSHED: seq<Byte> := [0x4a, 0x4c, 0x02, 0x00, 0x00, 0x00, 0xff, 0xff, 0x4b, 0x06, 0x00]

  lemma FlushedValue()
    ensures InputOf(FLUSHED) == Input(0x64bffff000000024c4a, 88)
  {
    hide Bytes, Pow2;
    LastByte(0x00);
    OneByte(0x06, [0x00]);
    OneByte(0x4b, [0x06] + [0x00]);
    FourBytes(0x00, 0x00, 0xff, 0xff, [0x4b] + ([0x06] + [0x00]));
    FourBytes(0x4a, 0x4c, 0x02, 0x00, [0x00, 0x00, 0xff, 0xff] + ([0x4b] + ([0x06] + [0x00])));
    assert [0x4a, 0x4c, 0x02, 0x00] + ([0x00, 0x00, 0xff, 0xff] + ([0x4b] + ([0x06] + [0x00]))) == FLUSHED;
  }

  lemma StaticHas()
    ensures Has(STATIC_LIT, 97, 8, 137) && Has(STATIC_LIT, 98, 8, 73) && Has(STATIC_LIT, 99, 8, 201)
    ensures Has(STATIC_LIT, 256, 7, 0) && Tabled(STATIC_LIT, STATIC_DIST)
  {
    hide STATIC_LIT, STATIC_DIST, Code, FirstCode, Reverse, Has, Complete, Fits, Tabled;
    FixedCode(97);
    FixedCode(98);
    FixedCode(99);
    FixedCode(256);
    StaticFits();
    StaticReversals();
    HasIs(STATIC_LIT, 97, 145, 137);
    HasIs(STATIC_LIT, 98, 146, 73);
    HasIs(STATIC_LIT, 99, 147, 201);
    HasIs(STATIC_LIT, 256, 0, 0);
  }

  lemma StaticFits()
    ensures Fits(STATIC_LIT) && Tabled(STATIC_LIT, STATIC_DIST)
  {
    StaticComplete();
    hide STATIC_LIT, STATIC_DIST, FirstCode;
  }

  lemma StaticReversals()
    ensures Reverse(145, 8) == 137 && Reverse(146, 8) == 73 && Reverse(147, 8) == 201 && Reverse(0, 7) == 0
  {
    hide Reverse;
    Reversal(145);
    Reversal(146);
    Reversal(147);
    Reversal(0);
  }

  // One bit after the other.
  lemma Reversal(code: nat)
    requires code < 256
    ensures Reverse(code, 8) == code / 128 % 2 + 2 * (code / 64 % 2) + 4 * (code / 32 % 2) + 8 * (code / 16 % 2)
                                + 16 * (code / 8 % 2) + 32 * (code / 4 % 2) + 64 * (code / 2 % 2) + 128 * (code % 2)
    ensures Reverse(code, 8) == code / 128 % 2 + 2 * Reverse(code, 7)
  {
    ShrDiv(code, 0);
    ShrDiv(code, 1);
    ShrDiv(code, 2);
    ShrDiv(code, 3);
    ShrDiv(code, 4);
    ShrDiv(code, 5);
    ShrDiv(code, 6);
    ShrDiv(code, 7);
    hide Shr;
    ReverseTop(code, 8);
    ReverseTop(code, 7);
    ReverseTop(code, 6);
    ReverseTop(code, 5);
    ReverseTop(code, 4);
    ReverseTop(code, 3);
    ReverseTop(code, 2);
    ReverseTop(code, 1);
    NoBits(0, code);
  }

  const AB: seq<Op> := [Literal(97), Literal(98)]
  const ONLY_C: seq<Op> := [Literal(99)]

  lemma FlushedBits()
    ensures ReadBits(1, Input(0x64bffff000000024c4a, 88)) == Read(0, Input(0x325ffff800000012625, 87))
    ensures ReadBits(2, Input(0x325ffff800000012625, 87)) == Read(1, Input(0xc97fffe00000004989, 85))
    ensures ReadBits(1, Input(0x192ffffc00000, 62)) == Read(0, Input(0xc97fffe00000, 61))
    ensures ReadBits(2, Input(0xc97fffe00000, 61)) == Read(0, Input(0x325ffff80000, 59))
    ensures ReadBits(1, Input(0x64b, 24)) == Read(1, Input(0x325, 23))
    ensures ReadBits(2, Input(0x325, 23)) == Read(1, Input(0xc9, 21))
  {
    RunPowers();
    assert Pow2(1) == 2;
    hide Pow2, ReadBits;
    BitsRead(0, 1, 0x325ffff800000012625, 87);
    BitsRead(1, 2, 0xc97fffe00000004989, 85);
    BitsRead(0, 1, 0xc97fffe00000, 61);
    BitsRead(0, 2, 0x325ffff80000, 59);
    BitsRead(1, 1, 0x325, 23);
    BitsRead(1, 2, 0xc9, 21);
  }

  lemma FlushedOps()
    ensures Reads(STATIC_LIT, STATIC_DIST, AB, 0, 0xc97fffe00000004989, 85, 3, Input(0x192ffffc00000, 62))
    ensures Reads(STATIC_LIT, STATIC_DIST, ONLY_C, 0, 0xc9, 21, 1, Input(0x0, 6))
  {
    StaticHas();
    DistancePowers();
    hide Reads, Has, STATIC_LIT, STATIC_DIST, Pow2;
    EndRead(STATIC_LIT, STATIC_DIST, AB, 7, 0, 0x192ffffc00000, 62, 1);
    LiteralRead(STATIC_LIT, STATIC_DIST, AB, 1, 98, 8, 73, 0xc97fffe0000000, 69, 1, Input(0x192ffffc00000, 62));
    LiteralRead(STATIC_LIT, STATIC_DIST, AB, 0, 97, 8, 137, 0xc97fffe000000049, 77, 2, Input(0x192ffffc00000, 62));
    EndRead(STATIC_LIT, STATIC_DIST, ONLY_C, 7, 0, 0x0, 6, 0);
    LiteralRead(STATIC_LIT, STATIC_DIST, ONLY_C, 0, 99, 8, 201, 0x0, 13, 0, Input(0x0, 6));
  }

  lemma FlushedMarker()
    ensures ReadStored(Input(0x325ffff80000, 59), 1) == Read([], Input(0x64b, 24))
  {
    MarkerPowers();
    hide Pow2, ReadBits;
    BitsRead(0, 3, 0x64bffff0000, 56);
    BitsRead(0, 16, 0x64bffff, 40);
    BitsRead(0xFFFF, 16, 0x64b, 24);
  }

  lemma MarkerPowers()
    ensures Pow2(3) == 8 && Pow2(16) == 0x10000
  {
    Pow2Values();
  }

  lemma MarkerBlock()
    ensures ReadBlock(Input(0xc97fffe00000, 61), 1) == Read([], Input(0x64b, 24))
  {
    FlushedBits();
    FlushedMarker();
    hide ReadBits, ReadStored;
  }

  // Three blocks, read as one text in any room that is enough for it.
  lemma FlushedStream(room: nat)
    requires room >= 3
    ensures ReadStream(InputOf(FLUSHED), room) == Read([Literal(97), Literal(98), Literal(99)], Input(0x0, 6))
  {
    FlushedValue();
    FlushedBits();
    FlushedOps();
    MarkerBlock();
    OpsSizes();
    hide ReadBits, Reads, InputOf, ReadStream, ReadBlock, Produced, AB, ONLY_C;
    StaticBlock(Input(0x325ffff800000012625, 87), AB, 3, 0xc97fffe00000004989, 85, Input(0x192ffffc00000, 62));
    StaticBlock(Input(0x325, 23), ONLY_C, 1, 0xc9, 21, Input(0x0, 6));
    StreamEnds(Input(0x64b, 24), Input(0x325, 23), 1, ONLY_C, Input(0x0, 6));
    StreamGoesOn(Input(0x192ffffc00000, 62), Input(0xc97fffe00000, 61), 1, [], Input(0x64b, 24), ONLY_C, Input(0x0, 6));
    StreamGoesOn(Input(0x64bffff000000024c4a, 88), Input(0x325ffff800000012625, 87), 3, AB,
                 Input(0x192ffffc00000, 62), [] + ONLY_C, Input(0x0, 6));
    T.StreamRoom(InputOf(FLUSHED), 3, room);
  }

  lemma OpsSizes()
    ensures Produced(AB) == 2 && Produced([]) == 0
    ensures AB + ([] + ONLY_C) == [Literal(97), Literal(98), Literal(99)]
  {
  }

  // ---------------------------------------------------------------- stored streams, byte by byte

  lemma ByteRead(b: Byte, more: nat, n: nat)
    ensures ReadBits(8, Input(b + 256 * more, n + 8)) == Read(b, Input(more, n))
  {
    assert Pow2(8) == 256;
    hide ReadBits, Pow2;
    BitsRead(b, 8, more, n);
  }

  lemma TwoBytesRead(a: Byte, b: Byte, more: nat, n: nat)
    ensures ReadBits(16, Input(a + 256 * b + 65536 * more, n + 16)) == Read(a + 256 * b, Input(more, n))
  {
    Pow2Values();
    hide ReadBits, Pow2;
    BitsRead(a + 256 * b, 16, more, n);
  }

  lemma ByteInFront(n: nat, input: Input, b: nat, next: Input, ops: seq<Op>, rest: Input)
    requires ReadBits(8, input) == Read(b, next) && ReadBytes(n, next) == Read(ops, rest)
    ensures ReadBytes(n + 1, input) == Read([Literal(b)] + ops, rest)
  {
    hide ReadBits;
  }

  lemma {:induction false} ContentRead(bytes: seq<Byte>)
    ensures ReadBytes(|bytes|, InputOf(bytes)) == Read(Literals(bytes), Input(0, 0))
  {
    if bytes == [] {
      assert Literals(bytes) == [];
    } else {
      hide ReadBits, ReadBytes, Bytes;
      ContentRead(bytes[1..]);
      assert [bytes[0]] + bytes[1..] == bytes;
      OneByte(bytes[0], bytes[1..]);
      ByteRead(bytes[0], Bytes(bytes[1..], 0), 8 * |bytes[1..]|);
      assert [Literal(bytes[0])] + Literals(bytes[1..]) == Literals(bytes);
      ByteInFront(|bytes| - 1, InputOf(bytes), bytes[0], InputOf(bytes[1..]), Literals(bytes[1..]), Input(0, 0));
    }
  }

  lemma HeadBits(more: nat)
    ensures Followed(1, 128 * more, 1) == 1 + 256 * more && Followed(0, 32 * more, 2) == 128 * more
    ensures Followed(0, more, 5) == 32 * more && 1 < Pow2(1) && 0 < Pow2(2) && 0 < Pow2(5)
  {
    assert Pow2(1) == 2 && Pow2(2) == 4 && Pow2(5) == 32;
    hide Pow2;
  }

  // The header byte of a last, stored block: the rest of that byte is skipped.
  lemma StoredHead(more: nat, n: nat, room: nat)
    requires n % 8 == 0
    ensures ReadStream(Input(1 + 256 * more, n + 8), room) == ReadStored(Input(32 * more, n + 5), room)
    ensures Skip(Input(32 * more, n + 5), (n + 5) % 8) == Input(more, n)
  {
    HeadBits(more);
    hide ReadBits, Pow2, ReadStored, ReadStream, Followed, Shr;
    BitsRead(1, 1, 128 * more, n + 7);
    BitsRead(0, 2, 32 * more, n + 5);
    FollowedReads(0, more, 5);
    assert ReadBlock(Input(128 * more, n + 7), room) == ReadStored(Input(32 * more, n + 5), room);
    hide ReadBlock;
    StreamStep(Input(1 + 256 * more, n + 8), room);
  }

  // Length, complement and content.
  lemma StoredTail(input: Input, a: Byte, b: Byte, c: Byte, d: Byte, more: nat, n: nat, room: nat)
    requires Skip(input, input.count % 8) == Input(a + 256 * b + 65536 * (c + 256 * d + 65536 * more), n + 32)
    ensures ReadStored(input, room) ==
            if a + c == 255 && b + d == 255 && a + 256 * b <= room then ReadBytes(a + 256 * b, Input(more, n))
            else Failed
  {
    hide ReadBits, ReadBytes, Skip;
    TwoBytesRead(a, b, c + 256 * d + 65536 * more, n + 16);
    TwoBytesRead(c, d, more, n);
  }

  lemma StoredInput(a: Byte, b: Byte, c: Byte, d: Byte, bytes: seq<Byte>)
    ensures InputOf([1] + ([a, b, c, d] + bytes)) ==
            Input(1 + 256 * (a + 256 * b + 65536 * (c + 256 * d + 65536 * InputOf(bytes).bits)), 8 * |bytes| + 40)
  {
    hide Bytes;
    OneByte(1, [a, b, c, d] + bytes);
    FourBytes(a, b, c, d, bytes);
  }

  // Any bytes, stored in one block: length, complement and bytes are read as these bytes, and with a complement that
  // does not match nothing is read.
  lemma StoredStream(a: Byte, b: Byte, c: Byte, d: Byte, bytes: seq<Byte>, room: nat)
    requires |bytes| == a + 256 * b <= room
    ensures ReadStream(InputOf([1] + ([a, b, c, d] + bytes)), room) ==
            if a + c == 255 && b + d == 255 then Read(Literals(bytes), Input(0, 0)) else Failed
  {
    hide *;
    StoredInput(a, b, c, d, bytes);
    ContentRead(bytes);
    InputSize(bytes);
    StoredBits(a, b, c, d, InputOf(bytes).bits, 8 * |bytes|, room);
  }

  lemma StoredBits(a: Byte, b: Byte, c: Byte, d: Byte, more: nat, n: nat, room: nat)
    requires n % 8 == 0
    ensures ReadStream(Input(1 + 256 * (a + 256 * b + 65536 * (c + 256 * d + 65536 * more)), n + 40), room) ==
            if a + c == 255 && b + d == 255 && a + 256 * b <= room then ReadBytes(a + 256 * b, Input(more, n))
            else Failed
  {
    hide *;
    var tail := a + 256 * b + 65536 * (c + 256 * d + 65536 * more);
    StoredHead(tail, n + 32, room);
    StoredTail(Input(32 * tail, n + 37), a, b, c, d, more, n, room);
  }

  lemma InputSize(bytes: seq<Byte>)
    ensures InputOf(bytes).count == 8 * |bytes|
  {
  }
}
