// A descriptor and the same descriptor without its first character can have the same checksum (section "Checksum" of
// BIP 380 promises nothing about lost characters): one such pair, run through the checksum six characters at a time.
module DescriptorCollision {
  import opened DescriptorPolymod
  import opened DescriptorChecksum

  const LONG := "wsh([d34db33f]h0bWssC0/<0;1>/*)"
  const SHORT := "sh([d34db33f]h0bWssC0/<0;1>/*)"

  // ---------------------------------------------------------------- places in the alphabet

  // Those of the characters used here.
  function Where(c: char): int {
    if '0' <= c <= '9' then c as int - '0' as int
    else if 'a' <= c <= 'h' then c as int - 'a' as int + 18
    else if 'I' <= c <= 'Z' then c as int - 'I' as int + 32
    else if 'i' <= c <= 'z' then c as int - 'i' as int + 64
    else if 'A' <= c <= 'H' then c as int - 'A' as int + 82
    else if c == '(' then 10 else if c == ')' then 11 else if c == '[' then 12 else if c == ']' then 13
    else if c == '/' then 16 else if c == '*' then 17
    else if c == ';' then 54 else if c == '<' then 55 else if c == '>' then 57
    else -1
  }

  lemma Row0(k: nat)
    requires k < 16 && Where(INPUT_CHARSET[k]) >= 0
    ensures Where(INPUT_CHARSET[k]) == k
  {
  }

  lemma Row1(k: nat)
    requires 16 <= k < 32 && Where(INPUT_CHARSET[k]) >= 0
    ensures Where(INPUT_CHARSET[k]) == k
  {
  }

  lemma Row2(k: nat)
    requires 32 <= k < 48 && Where(INPUT_CHARSET[k]) >= 0
    ensures Where(INPUT_CHARSET[k]) == k
  {
  }

  lemma Row3(k: nat)
    requires 48 <= k < 64 && Where(INPUT_CHARSET[k]) >= 0
    ensures Where(INPUT_CHARSET[k]) == k
  {
  }

  lemma Row4(k: nat)
    requires 64 <= k < 80 && Where(INPUT_CHARSET[k]) >= 0
    ensures Where(INPUT_CHARSET[k]) == k
  {
  }

  lemma Row5(k: nat)
    requires 80 <= k < 95 && Where(INPUT_CHARSET[k]) >= 0
    ensures Where(INPUT_CHARSET[k]) == k
  {
  }

  // Found at its place.
  ghost predicate At(c: char, v: int) {
    c in INPUT_CHARSET && Place(c) == v
  }

  lemma PlaceIs(c: char)
    requires 0 <= Where(c) < |INPUT_CHARSET| && INPUT_CHARSET[Where(c)] == c
    ensures At(c, Where(c))
  {
    CharsetSizes();
    hide INPUT_CHARSET, Where;
    var k := Place(c);
    assert INPUT_CHARSET[k] == c;
    if k < 16 { Row0(k); } else if k < 32 { Row1(k); } else if k < 48 { Row2(k); }
    else if k < 64 { Row3(k); } else if k < 80 { Row4(k); } else { Row5(k); }
  }

  lemma PlacesHold()
    ensures |INPUT_CHARSET| == 95
    ensures INPUT_CHARSET[10] == '(' && INPUT_CHARSET[11] == ')' && INPUT_CHARSET[17] == '*' && INPUT_CHARSET[16] == '/'
    ensures INPUT_CHARSET[0] == '0' && INPUT_CHARSET[1] == '1' && INPUT_CHARSET[3] == '3' && INPUT_CHARSET[4] == '4'
    ensures INPUT_CHARSET[54] == ';' && INPUT_CHARSET[55] == '<' && INPUT_CHARSET[57] == '>' && INPUT_CHARSET[84] == 'C'
    ensures INPUT_CHARSET[46] == 'W' && INPUT_CHARSET[12] == '[' && INPUT_CHARSET[13] == ']' && INPUT_CHARSET[19] == 'b'
    ensures INPUT_CHARSET[21] == 'd' && INPUT_CHARSET[23] == 'f' && INPUT_CHARSET[25] == 'h' && INPUT_CHARSET[74] == 's'
    ensures INPUT_CHARSET[78] == 'w'
  {
  }

  lemma AllKnown()
    ensures At('(', 10) && At(')', 11) && At('*', 17) && At('/', 16) && At('0', 0) && At('1', 1) && At('3', 3)
    ensures At('4', 4) && At(';', 54) && At('<', 55) && At('>', 57) && At('C', 84) && At('W', 46) && At('[', 12)
    ensures At(']', 13) && At('b', 19) && At('d', 21) && At('f', 23) && At('h', 25) && At('s', 74) && At('w', 78)
  {
    PlacesHold();
    hide Place, INPUT_CHARSET, At;
    PlaceIs('('); PlaceIs(')'); PlaceIs('*'); PlaceIs('/'); PlaceIs('0'); PlaceIs('1'); PlaceIs('3');
    PlaceIs('4'); PlaceIs(';'); PlaceIs('<'); PlaceIs('>'); PlaceIs('C'); PlaceIs('W'); PlaceIs('[');
    PlaceIs(']'); PlaceIs('b'); PlaceIs('d'); PlaceIs('f'); PlaceIs('h'); PlaceIs('s'); PlaceIs('w');
  }

  // ---------------------------------------------------------------- a run over literals

  ghost predicate Is(n: nat, v: bv64) {
    n == v as nat
  }

  lemma Digits()
    ensures Is(0, 0) && Is(1, 1) && Is(2, 2) && Is(3, 3) && Is(4, 4) && Is(5, 5) && Is(6, 6) && Is(7, 7)
    ensures Is(8, 8) && Is(9, 9) && Is(10, 10) && Is(11, 11) && Is(12, 12) && Is(13, 13) && Is(14, 14) && Is(15, 15)
    ensures Is(16, 16) && Is(17, 17) && Is(18, 18) && Is(19, 19) && Is(20, 20) && Is(21, 21) && Is(22, 22) && Is(23, 23)
    ensures Is(24, 24) && Is(25, 25) && Is(26, 26) && Is(27, 27) && Is(28, 28) && Is(29, 29) && Is(30, 30) && Is(31, 31)
  {
  }

  function Run(x: bv64, bits: seq<bv64>): bv64
    decreases |bits|
  {
    if bits == [] then x else Run(Step(x, bits[0]), bits[1..])
  }

  lemma IsSym(n: nat, v: bv64)
    requires n < 32 && Is(n, v)
    ensures Sym(n) == v
  {
    hide Sym;
    SymBack(n);
  }

  lemma {:induction false} RunIsPoly(x: bv64, bits: seq<bv64>, syms: Symbols)
    requires |bits| == |syms| && forall i :: 0 <= i < |syms| ==> Is(syms[i], bits[i])
    ensures Run(x, bits) == Poly(x, syms)
    decreases |bits|
  {
    hide Step, Sym, Is;
    if bits != [] {
      assert Is(syms[0], bits[0]);
      IsSym(syms[0], bits[0]);
      RunIsPoly(Step(x, bits[0]), bits[1..], syms[1..]);
    }
  }

  // Characters in the alphabet that take the checksum from one state to another.
  ghost predicate Goes(x: bv64, s: string, y: bv64) {
    Spelled(s) && Poly(x, Expand(PlacesOf(s))) == y
  }

  lemma Chunk(x: bv64, s: string, vs: Places, syms: Symbols, bits: seq<bv64>, y: bv64)
    requires |s| == |vs| && forall i :: 0 <= i < |s| ==> At(s[i], vs[i])
    requires |bits| == |syms| && forall i :: 0 <= i < |syms| ==> Is(syms[i], bits[i])
    requires Expand(vs) == syms && Run(x, bits) == y
    ensures Goes(x, s, y)
  {
    hide Place, INPUT_CHARSET, Run, Poly, Expand;
    assert PlacesOf(s) == vs;
    RunIsPoly(x, bits, syms);
  }

  lemma {:induction false} ExpandConcat(a: Places, b: Places)
    requires |a| % 3 == 0
    ensures Expand(a + b) == Expand(a) + Expand(b)
    decreases |a|
  {
    if a == [] {
      assert a + b == b;
    } else {
      assert (a + b)[3..] == a[3..] + b;
      ExpandConcat(a[3..], b);
    }
  }

  lemma GoesOn(x: bv64, s: string, y: bv64, t: string, z: bv64)
    requires Goes(x, s, y) && Goes(y, t, z) && |s| % 3 == 0
    ensures Goes(x, s + t, z)
  {
    hide Place, INPUT_CHARSET, Poly, Expand;
    assert PlacesOf(s + t) == PlacesOf(s) + PlacesOf(t);
    ExpandConcat(PlacesOf(s), PlacesOf(t));
    PolyConcat(x, Expand(PlacesOf(s)), Expand(PlacesOf(t)));
  }

  // ---------------------------------------------------------------- the two texts

  lemma LongRun0()
    ensures Run(0x1, [14, 10, 25, 24, 10, 12, 21, 0]) == 0x876d602b29
  {
  }

  lemma Long0()
    ensures Goes(0x1, "wsh([d", 0x876d602b29)
  {
    AllKnown(); Digits();
    LongRun0();
    hide Place, INPUT_CHARSET, At, Goes, Is, Run;
    Chunk(0x1, "wsh([d", [78, 74, 25, 10, 12, 21],
          [14, 10, 25, 24, 10, 12, 21, 0], [14, 10, 25, 24, 10, 12, 21, 0], 0x876d602b29);
  }

  lemma LongRun1()
    ensures Run(0x876d602b29, [3, 4, 21, 0, 19, 3, 3, 0]) == 0x911cf1e3a7
  {
  }

  lemma Long1()
    ensures Goes(0x876d602b29, "34db33", 0x911cf1e3a7)
  {
    AllKnown(); Digits();
    LongRun1();
    hide Place, INPUT_CHARSET, At, Goes, Is, Run;
    Chunk(0x876d602b29, "34db33", [3, 4, 21, 19, 3, 3],
          [3, 4, 21, 0, 19, 3, 3, 0], [3, 4, 21, 0, 19, 3, 3, 0], 0x911cf1e3a7);
  }

  lemma LongRun2()
    ensures Run(0x911cf1e3a7, [23, 13, 25, 0, 0, 19, 14, 1]) == 0xf922eb64c4
  {
  }

  lemma Long2()
    ensures Goes(0x911cf1e3a7, "f]h0bW", 0xf922eb64c4)
  {
    AllKnown(); Digits();
    LongRun2();
    hide Place, INPUT_CHARSET, At, Goes, Is, Run;
    Chunk(0x911cf1e3a7, "f]h0bW", [23, 13, 25, 0, 19, 46],
          [23, 13, 25, 0, 0, 19, 14, 1], [23, 13, 25, 0, 0, 19, 14, 1], 0xf922eb64c4);
  }

  lemma LongRun3()
    ensures Run(0xf922eb64c4, [10, 10, 20, 26, 0, 16, 23, 1]) == 0xcc93a24d82
  {
  }

  lemma Long3()
    ensures Goes(0xf922eb64c4, "ssC0/<", 0xcc93a24d82)
  {
    AllKnown(); Digits();
    LongRun3();
    hide Place, INPUT_CHARSET, At, Goes, Is, Run;
    Chunk(0xf922eb64c4, "ssC0/<", [74, 74, 84, 0, 16, 55],
          [10, 10, 20, 26, 0, 16, 23, 1], [10, 10, 20, 26, 0, 16, 23, 1], 0xcc93a24d82);
  }

  lemma LongRun4()
    ensures Run(0xcc93a24d82, [0, 22, 1, 3, 25, 16, 17, 9]) == 0x284478e27f
  {
  }

  lemma Long4()
    ensures Goes(0xcc93a24d82, "0;1>/*", 0x284478e27f)
  {
    AllKnown(); Digits();
    LongRun4();
    hide Place, INPUT_CHARSET, At, Goes, Is, Run;
    Chunk(0xcc93a24d82, "0;1>/*", [0, 54, 1, 57, 16, 17],
          [0, 22, 1, 3, 25, 16, 17, 9], [0, 22, 1, 3, 25, 16, 17, 9], 0x284478e27f);
  }

  lemma LongRun5()
    ensures Run(0x284478e27f, [11, 0]) == 0x97bdf5424a
  {
  }

  lemma Long5()
    ensures Goes(0x284478e27f, ")", 0x97bdf5424a)
  {
    AllKnown(); Digits();
    LongRun5();
    hide Place, INPUT_CHARSET, At, Goes, Is, Run;
    Chunk(0x284478e27f, ")", [11], [11, 0], [11, 0], 0x97bdf5424a);
  }

  lemma LongGoes()
    ensures Goes(1, LONG, 0x97bdf5424a)
  {
    hide Goes;
    Long0(); Long1(); Long2(); Long3(); Long4(); Long5();
    GoesOn(1, "wsh([d", 0x876d602b29, "34db33", 0x911cf1e3a7);
    assert "wsh([d" + "34db33" == "wsh([d34db33";
    GoesOn(1, "wsh([d34db33", 0x911cf1e3a7, "f]h0bW", 0xf922eb64c4);
    assert "wsh([d34db33" + "f]h0bW" == "wsh([d34db33f]h0bW";
    GoesOn(1, "wsh([d34db33f]h0bW", 0xf922eb64c4, "ssC0/<", 0xcc93a24d82);
    assert "wsh([d34db33f]h0bW" + "ssC0/<" == "wsh([d34db33f]h0bWssC0/<";
    GoesOn(1, "wsh([d34db33f]h0bWssC0/<", 0xcc93a24d82, "0;1>/*", 0x284478e27f);
    assert "wsh([d34db33f]h0bWssC0/<" + "0;1>/*" == "wsh([d34db33f]h0bWssC0/<0;1>/*";
    GoesOn(1, "wsh([d34db33f]h0bWssC0/<0;1>/*", 0x284478e27f, ")", 0x97bdf5424a);
    assert "wsh([d34db33f]h0bWssC0/<0;1>/*" + ")" == "wsh([d34db33f]h0bWssC0/<0;1>/*)";
  }

  lemma ShortRun0()
    ensures Run(0x1, [10, 25, 10, 18, 12, 21, 3, 0]) == 0xa38bc34de9
  {
  }

  lemma Short0()
    ensures Goes(0x1, "sh([d3", 0xa38bc34de9)
  {
    AllKnown(); Digits();
    ShortRun0();
    hide Place, INPUT_CHARSET, At, Goes, Is, Run;
    Chunk(0x1, "sh([d3", [74, 25, 10, 12, 21, 3],
          [10, 25, 10, 18, 12, 21, 3, 0], [10, 25, 10, 18, 12, 21, 3, 0], 0xa38bc34de9);
  }

  lemma ShortRun1()
    ensures Run(0xa38bc34de9, [4, 21, 19, 0, 3, 3, 23, 0]) == 0x6400cda7f8
  {
  }

  lemma Short1()
    ensures Goes(0xa38bc34de9, "4db33f", 0x6400cda7f8)
  {
    AllKnown(); Digits();
    ShortRun1();
    hide Place, INPUT_CHARSET, At, Goes, Is, Run;
    Chunk(0xa38bc34de9, "4db33f", [4, 21, 19, 3, 3, 23],
          [4, 21, 19, 0, 3, 3, 23, 0], [4, 21, 19, 0, 3, 3, 23, 0], 0x6400cda7f8);
  }

  lemma ShortRun2()
    ensures Run(0x6400cda7f8, [13, 25, 0, 0, 19, 14, 10, 5]) == 0xe149f780c8
  {
  }

  lemma Short2()
    ensures Goes(0x6400cda7f8, "]h0bWs", 0xe149f780c8)
  {
    AllKnown(); Digits();
    ShortRun2();
    hide Place, INPUT_CHARSET, At, Goes, Is, Run;
    Chunk(0x6400cda7f8, "]h0bWs", [13, 25, 0, 19, 46, 74],
          [13, 25, 0, 0, 19, 14, 10, 5], [13, 25, 0, 0, 19, 14, 10, 5], 0xe149f780c8);
  }

  lemma ShortRun3()
    ensures Run(0xe149f780c8, [10, 20, 0, 24, 16, 23, 0, 3]) == 0xe4c43cb386
  {
  }

  lemma Short3()
    ensures Goes(0xe149f780c8, "sC0/<0", 0xe4c43cb386)
  {
    AllKnown(); Digits();
    ShortRun3();
    hide Place, INPUT_CHARSET, At, Goes, Is, Run;
    Chunk(0xe149f780c8, "sC0/<0", [74, 84, 0, 16, 55, 0],
          [10, 20, 0, 24, 16, 23, 0, 3], [10, 20, 0, 24, 16, 23, 0, 3], 0xe4c43cb386);
  }

  lemma ShortRun4()
    ensures Run(0xe4c43cb386, [22, 1, 25, 10, 16, 17, 11, 0]) == 0x97bdf5424a
  {
  }

  lemma Short4()
    ensures Goes(0xe4c43cb386, ";1>/*)", 0x97bdf5424a)
  {
    AllKnown(); Digits();
    ShortRun4();
    hide Place, INPUT_CHARSET, At, Goes, Is, Run;
    Chunk(0xe4c43cb386, ";1>/*)", [54, 1, 57, 16, 17, 11],
          [22, 1, 25, 10, 16, 17, 11, 0], [22, 1, 25, 10, 16, 17, 11, 0], 0x97bdf5424a);
  }

  lemma ShortGoes()
    ensures Goes(1, SHORT, 0x97bdf5424a)
  {
    hide Goes;
    Short0(); Short1(); Short2(); Short3(); Short4();
    GoesOn(1, "sh([d3", 0xa38bc34de9, "4db33f", 0x6400cda7f8);
    assert "sh([d3" + "4db33f" == "sh([d34db33f";
    GoesOn(1, "sh([d34db33f", 0x6400cda7f8, "]h0bWs", 0xe149f780c8);
    assert "sh([d34db33f" + "]h0bWs" == "sh([d34db33f]h0bWs";
    GoesOn(1, "sh([d34db33f]h0bWs", 0xe149f780c8, "sC0/<0", 0xe4c43cb386);
    assert "sh([d34db33f]h0bWs" + "sC0/<0" == "sh([d34db33f]h0bWssC0/<0";
    GoesOn(1, "sh([d34db33f]h0bWssC0/<0", 0xe4c43cb386, ";1>/*)", 0x97bdf5424a);
    assert "sh([d34db33f]h0bWssC0/<0" + ";1>/*)" == "sh([d34db33f]h0bWssC0/<0;1>/*)";
  }

  // Both texts have the same computed checksum.
  lemma SameChecksum()
    ensures Spelled(LONG) && Spelled(SHORT) && Computed(LONG) == Computed(SHORT)
  {
    hide Poly, Expand, Spelled, Xor;
    LongGoes();
    ShortGoes();
  }
}
