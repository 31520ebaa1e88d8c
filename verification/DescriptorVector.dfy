// The checksum of a descriptor given in BIP 380, followed letter by letter through the model of main/descriptor_text.c.
module DescriptorVector {
  import opened DescriptorPolymod
  import opened DescriptorChecksum
  import opened DescriptorCollision

  lemma LettersKnown()
    ensures At('r', 73) && At('a', 18) && At('e', 22)
  {
    LettersHold();
    hide Place, INPUT_CHARSET, At;
    PlaceIs('r');
    PlaceIs('a');
    PlaceIs('e');
  }

  lemma LettersHold()
    ensures |INPUT_CHARSET| == 95 && INPUT_CHARSET[73] == 'r' && INPUT_CHARSET[18] == 'a' && INPUT_CHARSET[22] == 'e'
  {
  }

  lemma Run0()
    ensures Run(0x1, [9, 18, 14, 20, 10, 21, 22, 0]) == 0xb943a04f49
  {
  }

  lemma Part0()
    ensures Goes(0x1, "raw(de", 0xb943a04f49)
  {
    AllKnown();
    LettersKnown();
    Digits();
    Run0();
    hide Place, INPUT_CHARSET, At, Goes, Is, Run;
    Chunk(0x1, "raw(de", [73, 18, 78, 10, 21, 22],
          [9, 18, 14, 20, 10, 21, 22, 0], [9, 18, 14, 20, 10, 21, 22, 0], 0xb943a04f49);
  }

  lemma Run1()
    ensures Run(0xb943a04f49, [18, 21, 19, 0, 22, 22, 23, 0]) == 0x5dca20199b
  {
  }

  lemma Part1()
    ensures Goes(0xb943a04f49, "adbeef", 0x5dca20199b)
  {
    AllKnown();
    LettersKnown();
    Digits();
    Run1();
    hide Place, INPUT_CHARSET, At, Goes, Is, Run;
    Chunk(0xb943a04f49, "adbeef", [18, 21, 19, 22, 22, 23],
          [18, 21, 19, 0, 22, 22, 23, 0], [18, 21, 19, 0, 22, 22, 23, 0], 0x5dca20199b);
  }

  lemma Run2()
    ensures Run(0x5dca20199b, [11, 0]) == 0xb685b6ead5
  {
  }

  lemma Part2()
    ensures Goes(0x5dca20199b, ")", 0xb685b6ead5)
  {
    AllKnown();
    LettersKnown();
    Digits();
    Run2();
    hide Place, INPUT_CHARSET, At, Goes, Is, Run;
    Chunk(0x5dca20199b, ")", [11],
          [11, 0], [11, 0], 0xb685b6ead5);
  }

  lemma EndRun()
    ensures Run(0xb685b6ead5, [0, 0, 0, 0, 0, 0, 0, 0]) == 0x39527804da
  {
  }

  lemma ZerosAre()
    ensures Zeros(8) == [0, 0, 0, 0, 0, 0, 0, 0]
  {
  }

  lemma Sums()
    ensures Spelled("raw(deadbeef)") && Computed("raw(deadbeef)") == 0x39527804db
  {
    Part0();
    Part1();
    Part2();
    EndRun();
    ZerosAre();
    Digits();
    LastBit();
    hide Goes, Is, Run, Xor;
    GoesOn(1, "raw(de", 0xb943a04f49, "adbeef", 0x5dca20199b);
    assert "raw(de" + "adbeef" == "raw(deadbeef";
    GoesOn(1, "raw(deadbeef", 0x5dca20199b, ")", 0xb685b6ead5);
    assert "raw(deadbeef" + ")" == "raw(deadbeef)";
    RunIsPoly(0xb685b6ead5, [0, 0, 0, 0, 0, 0, 0, 0], [0, 0, 0, 0, 0, 0, 0, 0]);
    Gone("raw(deadbeef)", 0xb685b6ead5, 0x39527804da);
  }

  lemma LastBit()
    ensures Xor(0x39527804da, 1) == 0x39527804db
  {
  }

  lemma Gone(s: string, x: bv64, y: bv64)
    requires Goes(1, s, x) && Poly(x, Zeros(8)) == y
    ensures Spelled(s) && Computed(s) == Xor(y, 1)
  {
    hide Poly, Xor, Expand, Place, INPUT_CHARSET;
  }

  function Five(x: bv64): bv64 {
    x >> 5
  }

  lemma DownStep(x: bv64, k: nat)
    ensures Down(x, k) == if k == 0 then x else Down(Five(x), k - 1)
  {
  }

  lemma {:induction false} DownOnce(x: bv64, k: nat)
    ensures Down(x, k + 1) == Five(Down(x, k)) && Down(x, 0) == x
    decreases k
  {
    hide Down, Five;
    DownStep(x, k + 1);
    DownStep(x, k);
    DownStep(Five(x), 0);
    DownStep(x, 0);
    if k > 0 {
      DownOnce(Five(x), k - 1);
    }
  }

  lemma SymbolsAre()
    ensures Symbol(0x39527804db, 0) == 7
    ensures Symbol(0x39527804db, 1) == 5
    ensures Symbol(0x39527804db, 2) == 9
    ensures Symbol(0x39527804db, 3) == 7
    ensures Symbol(0x39527804db, 4) == 16
    ensures Symbol(0x39527804db, 5) == 1
    ensures Symbol(0x39527804db, 6) == 6
    ensures Symbol(0x39527804db, 7) == 27
  {
    hide Down;
    DownOnce(0x39527804db, 0);
    assert Down(0x39527804db, 1) == 0x1ca93c026;
    DownOnce(0x39527804db, 1);
    assert Down(0x39527804db, 2) == 0xe549e01;
    DownOnce(0x39527804db, 2);
    assert Down(0x39527804db, 3) == 0x72a4f0;
    DownOnce(0x39527804db, 3);
    assert Down(0x39527804db, 4) == 0x39527;
    DownOnce(0x39527804db, 4);
    assert Down(0x39527804db, 5) == 0x1ca9;
    DownOnce(0x39527804db, 5);
    assert Down(0x39527804db, 6) == 0xe5;
    DownOnce(0x39527804db, 6);
    assert Down(0x39527804db, 7) == 0x7;
  }

  lemma LettersAre()
    ensures |CHECKSUM_CHARSET| == 32
    ensures CHECKSUM_CHARSET[1] == 'p' && CHECKSUM_CHARSET[5] == '9'
    ensures CHECKSUM_CHARSET[6] == 'x' && CHECKSUM_CHARSET[7] == '8'
    ensures CHECKSUM_CHARSET[9] == 'f' && CHECKSUM_CHARSET[16] == 's' && CHECKSUM_CHARSET[27] == 'm'
  {
  }

  lemma NumbersAre()
    ensures 1 as bv64 as nat == 1 && 5 as bv64 as nat == 5 && 6 as bv64 as nat == 6 && 7 as bv64 as nat == 7
    ensures 9 as bv64 as nat == 9 && 16 as bv64 as nat == 16 && 27 as bv64 as nat == 27
  {
  }

  // raw(deadbeef)#89f8spxm
  lemma VectorHolds()
    ensures Valid("raw(deadbeef)", "89f8spxm")
  {
    Sums();
    SymbolsAre();
    LettersAre();
    NumbersAre();
    hide Symbol, Computed, Spelled, CHECKSUM_CHARSET;
  }

  // ---------------------------------------------------------------- the alphabets

  // Characters of a set from one place on.
  ghost predicate Row(charset: string, at: nat, row: string) {
    at + |row| <= |charset| && forall i :: 0 <= i < |row| ==> charset[at + i] == row[i]
  }

  // As tabulated in BIP 173, eight to a row.
  lemma ChecksumAlphabet()
    ensures |CHECKSUM_CHARSET| == 32
    ensures Row(CHECKSUM_CHARSET, 0, "qpzry9x8") && Row(CHECKSUM_CHARSET, 8, "gf2tvdw0")
    ensures Row(CHECKSUM_CHARSET, 16, "s3jn54kh") && Row(CHECKSUM_CHARSET, 24, "ce6mua7l")
  {
  }

  // BIP 380 around its runs of letters and digits, whose places are those of DescriptorCollision.Where.
  lemma InputAlphabet()
    ensures |INPUT_CHARSET| == 95
    ensures Row(INPUT_CHARSET, 10, "()[],'/*") && Row(INPUT_CHARSET, 26, "@:$%{}")
    ensures Row(INPUT_CHARSET, 50, "&+-.;<=>?!^_|~") && Row(INPUT_CHARSET, 90, "`#\"\\ ")
  {
  }
}
