// What the descriptor checksum of main/descriptor_text.c guarantees: it is the check of BIP 380, and replacing
// any one character is always noticed, however long the text.
module DescriptorChecksumLaws {
  import opened Options
  import opened DescriptorPolymod
  import opened DescriptorChecksum

  // ---------------------------------------------------------------- eight symbols are a state

  predicate State(x: bv64) {
    x < LIMIT
  }

  lemma ZeroFits()
    ensures Small(0, 0) && State(0)
  {
  }

  lemma SymFive(v: nat)
    requires v < 32
    ensures Five(Sym(v))
  {
    SymBack(v);
  }

  lemma StepState(x: bv64, v: bv64)
    requires State(x) && Five(v)
    ensures State(Step(x, v))
  {
    StepBound(x, v);
  }

  lemma {:induction false} SymbolsOf(syms: Symbols, k: nat)
    requires k <= |syms| == 8
    ensures k < 8 ==> Small(Poly(0, syms[..k]), k)
    ensures State(Poly(0, syms[..k]))
    ensures forall j :: 0 <= j < k ==> Symbol(Poly(0, syms[..k]), 8 - k + j) == Sym(syms[j])
  {
    hide Poly, Step, Sym, Symbol, State, Small, Joined, Five, Low35;
    if k == 0 {
      assert syms[..0] == [];
      PolyNone(0);
      ZeroFits();
    } else {
      SymbolsOf(syms, k - 1);
      var d, v := Poly(0, syms[..k - 1]), Sym(syms[k - 1]);
      SymFive(syms[k - 1]);
      SmallLow(d, k - 1);
      OneMore(0, syms, k);
      StepUp(d, v);
      StepState(d, v);
      forall j | 0 <= j < k ensures Symbol(Step(d, v), 8 - k + j) == Sym(syms[j]) {
        SymbolUp(d, v, 8 - k + j);
      }
      if k < 8 {
        SmallUp(d, v, k - 1);
      }
    }
  }

  lemma OneMore(chk: bv64, syms: Symbols, k: nat)
    requires 0 < k <= |syms|
    ensures Poly(chk, syms[..k]) == Step(Poly(chk, syms[..k - 1]), Sym(syms[k - 1]))
  {
    hide Poly, Step, Sym;
    assert syms[..k] == syms[..k - 1] + [syms[k - 1]];
    PolyConcat(chk, syms[..k - 1], [syms[k - 1]]);
    var c := Poly(chk, syms[..k - 1]);
    PolyNext(c, syms[k - 1], []);
    assert [syms[k - 1]] + [] == [syms[k - 1]];
    PolyNone(Step(c, Sym(syms[k - 1])));
  }

  function High(x: bv64): bv64 {
    x >> 5
  }

  lemma Rebuild(x: bv64, y: bv64)
    requires High(x) == High(y) && Low5(x) == Low5(y)
    ensures x == y
  {
  }

  lemma SymbolIs(x: bv64, k: nat)
    requires k < 8
    ensures Symbol(x, 7 - k) == Low5(Down(x, k))
  {
    hide Down;
  }

  lemma {:induction false} SameDown(x: bv64, y: bv64, k: nat)
    requires k <= 8 && Down(x, 8) == Down(y, 8)
    requires forall i :: 0 <= i < 8 ==> Symbol(x, i) == Symbol(y, i)
    ensures Down(x, k) == Down(y, k)
    decreases 8 - k
  {
    hide Down, Symbol, High, Low5;
    if k < 8 {
      SameDown(x, y, k + 1);
      DownNext(x, k);
      DownNext(y, k);
      SymbolIs(x, k);
      SymbolIs(y, k);
      Rebuild(Down(x, k), Down(y, k));
    }
  }

  lemma {:induction false} DownNext(x: bv64, k: nat)
    ensures Down(x, k + 1) == High(Down(x, k))
  {
    if k > 0 {
      DownNext(x >> 5, k - 1);
    }
  }

  lemma SmallShift(x: bv64, k: nat)
    requires k < 7 && Small(x, k + 1)
    ensures Small(x >> 5, k)
  {
  }

  lemma {:induction false} SmallDown(x: bv64, k: nat)
    requires k < 8 && Small(x, k)
    ensures Down(x, k) == 0
  {
    if k > 0 {
      SmallShift(x, k - 1);
      SmallDown(x >> 5, k - 1);
    }
  }

  lemma NothingAbove(x: bv64)
    requires x < LIMIT
    ensures Down(x, 8) == 0
  {
    assert x >> 5 < 0x8_0000_0000;
    SmallDown(x >> 5, 7);
  }

  // Eight equal symbols make equal states.
  lemma SameSymbols(x: bv64, y: bv64)
    requires x < LIMIT && y < LIMIT && forall i :: 0 <= i < 8 ==> Symbol(x, i) == Symbol(y, i)
    ensures x == y
  {
    NothingAbove(x);
    NothingAbove(y);
    SameDown(x, y, 0);
  }

  // ---------------------------------------------------------------- compute form and check form

  lemma CharsetDistinct(i: nat, j: nat)
    requires i < j < 32
    ensures |CHECKSUM_CHARSET| == 32 && CHECKSUM_CHARSET[i] != CHECKSUM_CHARSET[j]
  {
  }

  lemma ChecksumPlace(c: char, i: nat)
    requires i < 32
    ensures |CHECKSUM_CHARSET| == 32
    ensures c == CHECKSUM_CHARSET[i] <==> Index(CHECKSUM_CHARSET, c) == Some(i)
  {
    CharsetSizes();
    hide CHECKSUM_CHARSET, Index;
    if c == CHECKSUM_CHARSET[i] {
      var k := Index(CHECKSUM_CHARSET, c).value;
      if k < i {
        CharsetDistinct(k, i);
      } else if i < k {
        CharsetDistinct(i, k);
      }
    }
  }

  ghost predicate ChecksumSpelled(checksum: string) {
    |checksum| == 8 && forall i :: 0 <= i < 8 ==> checksum[i] in CHECKSUM_CHARSET
  }

  ghost function ChecksumSymbols(checksum: string): (r: Symbols)
    requires ChecksumSpelled(checksum)
    ensures |r| == 8 && forall i :: 0 <= i < 8 ==> Index(CHECKSUM_CHARSET, checksum[i]) == Some(r[i])
  {
    CharsetSizes();
    seq(8, i requires 0 <= i < 8 => Index(CHECKSUM_CHARSET, checksum[i]).value)
  }

  // The check of BIP 380: text and checksum together leave the remainder 1.
  ghost predicate Checks(text: string, checksum: string) {
    Spelled(text) && ChecksumSpelled(checksum) && Poly(1, Expand(PlacesOf(text)) + ChecksumSymbols(checksum)) == 1
  }

  lemma MatchSymbol(chk: bv64, checksum: string, i: nat)
    requires |checksum| == 8 && i < 8
    ensures |CHECKSUM_CHARSET| == 32
    ensures checksum[i] == CHECKSUM_CHARSET[Symbol(chk, i) as nat] <==>
            Index(CHECKSUM_CHARSET, checksum[i]) == Some(Symbol(chk, i) as nat)
  {
    hide Symbol, CHECKSUM_CHARSET, Index;
    ChecksumPlace(checksum[i], Symbol(chk, i) as nat);
  }

  lemma SymOf(s: bv64, v: nat)
    requires v < 32 && s < 32
    ensures s as nat == v <==> s == Sym(v)
  {
    hide Sym;
    SymBack(v);
  }

  // A state's eight characters are the given ones exactly when it is what their symbols make from nothing.
  lemma MatchesIsPack(chk: bv64, checksum: string)
    requires chk < LIMIT && ChecksumSpelled(checksum)
    ensures Matches(chk, checksum) <==> chk == Poly(0, ChecksumSymbols(checksum))
  {
    hide Symbol, CHECKSUM_CHARSET, Index, Poly, Sym;
    var cs := ChecksumSymbols(checksum);
    SymbolsOf(cs, 8);
    assert cs[..8] == cs;
    var p := Poly(0, cs);
    forall i | 0 <= i < 8
      ensures |CHECKSUM_CHARSET| == 32
      ensures checksum[i] == CHECKSUM_CHARSET[Symbol(chk, i) as nat] <==> Symbol(chk, i) == Symbol(p, i)
    {
      MatchSymbol(chk, checksum, i);
      SymOf(Symbol(chk, i), cs[i]);
      assert Symbol(p, 8 - 8 + i) == Sym(cs[i]);
    }
    if Matches(chk, checksum) {
      SameSymbols(chk, p);
    }
  }

  lemma MatchesSpelled(chk: bv64, checksum: string)
    requires |checksum| == 8 && Matches(chk, checksum)
    ensures ChecksumSpelled(checksum)
  {
    hide Symbol, CHECKSUM_CHARSET;
    CharsetSizes();
  }

  lemma XorBack(f: bv64, a: bv64)
    ensures Xor(f, Xor(f, a)) == a
  {
    XorZero(f, f);
    XorZero(0, a);
    hide Xor;
    XorAssoc(f, f, a);
  }

  lemma XorMove(f: bv64, p: bv64)
    ensures Xor(f, 1) == p <==> Xor(f, p) == 1
  {
    hide Xor;
    XorBack(f, 1);
    XorBack(f, p);
  }

  // The function accepts exactly what the check form accepts.
  lemma ComputeIsCheck(text: string, checksum: string)
    requires |checksum| == 8
    ensures Valid(text, checksum) <==> Checks(text, checksum)
  {
    hide Matches, Poly, Expand, Xor, CHECKSUM_CHARSET, Index, INPUT_CHARSET, Zeros;
    if Spelled(text) {
      var state := Poly(1, Expand(PlacesOf(text)));
      var f := Poly(state, Zeros(8));
      assert Computed(text) == Xor(f, 1);
      PolyBound(1, Expand(PlacesOf(text)));
      PolyBound(state, Zeros(8));
      XorZero(f, 1);
      if ChecksumSpelled(checksum) {
        var cs := ChecksumSymbols(checksum);
        MatchesIsPack(Xor(f, 1), checksum);
        XorMove(f, Poly(0, cs));
        PolyLinear(state, 0, cs);
        XorZero(state, 0);
        PolyConcat(1, Expand(PlacesOf(text)), cs);
      } else if Matches(Computed(text), checksum) {
        MatchesSpelled(Computed(text), checksum);
      }
    }
  }

  // ---------------------------------------------------------------- one character replaced

  // Different states, the same symbols to come.
  lemma {:induction false} StaysDifferent(x: bv64, y: bv64, syms: Symbols)
    requires State(x) && State(y) && x != y
    ensures Poly(x, syms) != Poly(y, syms)
    decreases |syms|
  {
    hide Step, Sym, Poly, State, Five;
    if syms == [] {
      PolyNone(x);
      PolyNone(y);
    } else {
      var v := Sym(syms[0]);
      assert [syms[0]] + syms[1..] == syms;
      PolyNext(x, syms[0], syms[1..]);
      PolyNext(y, syms[0], syms[1..]);
      SymFive(syms[0]);
      DifferentStep(x, y, v);
      StaysDifferent(Step(x, v), Step(y, v), syms[1..]);
    }
  }

  lemma DifferentStep(x: bv64, y: bv64, v: bv64)
    requires State(x) && State(y) && x != y && Five(v)
    ensures Step(x, v) != Step(y, v) && State(Step(x, v)) && State(Step(y, v))
  {
    StepBound(x, v);
    StepBound(y, v);
    hide Step;
    StepInjective(x, y, v);
  }

  // Within the group of the replaced character: the states differ only low down, and either they or the
  // groups so far do differ.
  ghost predicate Apart(x: bv64, y: bv64, g: nat, h: nat, n: nat) {
    && 1 <= n <= 3 && State(x) && State(y) && GroupOk(g, n) && GroupOk(h, n)
    && Small(Xor(x, y), n) && (x != y || g != h)
  }

  // Steps as pure equations.
  predicate Nil(d: bv64) {
    d == 0
  }

  lemma JoinPlain(d: bv64, e: bv64)
    requires d < 0x8_0000_0000 && e < 32
    ensures (d << 5) ^ e == 0 <==> d == 0 && e == 0
  {
  }

  lemma JoinNil(d: bv64, e: bv64)
    requires Low35(d) && Five(e)
    ensures Nil(Joined(d, e)) <==> Nil(d) && Nil(e)
  {
    JoinPlain(d, e);
    JoinedIs(d, e);
  }

  lemma DiffNil(x: bv64, y: bv64)
    ensures Nil(Xor(x, y)) <==> x == y
    ensures Five(x) && Five(y) ==> Five(Xor(x, y))
  {
  }

  lemma ApartStep(x: bv64, y: bv64, v: bv64, w: bv64, n: nat)
    requires n < 4 && State(x) && State(y) && Five(v) && Five(w) && Small(Xor(x, y), n)
    ensures State(Step(x, v)) && State(Step(y, w))
    ensures Small(Xor(Step(x, v), Step(y, w)), n + 1)
    ensures Step(x, v) != Step(y, w) <==> x != y || v != w
  {
    hide Step, Xor, Small, State, Five, Nil, Joined, Low35;
    StepState(x, v);
    StepState(y, w);
    SmallLow(Xor(x, y), n);
    StepDiff(x, y, v, w);
    DiffNil(x, y);
    DiffNil(v, w);
    DiffNil(Step(x, v), Step(y, w));
    JoinNil(Xor(x, y), Xor(v, w));
    SmallUp(Xor(x, y), Xor(v, w), n);
  }

  lemma {:induction false} GroupApart(x: bv64, y: bv64, g: nat, h: nat, n: nat, vs: Places)
    requires Apart(x, y, g, h, n) && n < 3
    ensures Poly(x, Rest(g, n, vs)) != Poly(y, Rest(h, n, vs))
    decreases 3 - n, 0
  {
    hide Step, Sym, Poly, Rest, Xor, Small, State, Five;
    if vs == [] {
      PolyEnd(x, g, n);
      PolyEnd(y, h, n);
      GroupStep(x, y, g, h, n);
    } else {
      PolyGroup(x, g, n, vs);
      PolyGroup(y, h, n, vs);
      var v := Sym(vs[0] % 32);
      SymFive(vs[0] % 32);
      ApartStep(x, y, v, v, n);
      NextGroup(Step(x, v), Step(y, v), g * 3 + vs[0] / 32, h * 3 + vs[0] / 32, n + 1, vs[1..]);
    }
  }

  // After a character: its group is complete, or goes on.
  lemma {:induction false} NextGroup(x: bv64, y: bv64, g: nat, h: nat, n: nat, rest: Places)
    requires Apart(x, y, g, h, n)
    ensures n == 3 ==> Poly(Step(x, Sym(g)), Rest(0, 0, rest)) != Poly(Step(y, Sym(h)), Rest(0, 0, rest))
    ensures n < 3 ==> Poly(x, Rest(g, n, rest)) != Poly(y, Rest(h, n, rest))
    decreases 3 - n, 1
  {
    hide Step, Sym, Poly, Rest, Xor, Small, State, Five;
    if n == 3 {
      GroupStep(x, y, g, h, 3);
      StaysDifferent(Step(x, Sym(g)), Step(y, Sym(h)), Rest(0, 0, rest));
    } else {
      GroupApart(x, y, g, h, n, rest);
    }
  }

  lemma GroupStep(x: bv64, y: bv64, g: nat, h: nat, n: nat)
    requires Apart(x, y, g, h, n)
    ensures Step(x, Sym(g)) != Step(y, Sym(h)) && State(Step(x, Sym(g))) && State(Step(y, Sym(h)))
  {
    hide Step, Sym, Xor, State, Five, Small;
    SymFive(g);
    SymFive(h);
    if g != h {
      SymInjective(g, h);
    }
    ApartStep(x, y, Sym(g), Sym(h), n);
  }

  lemma SelfSmall(x: bv64)
    ensures Small(Xor(x, x), 0)
  {
  }

  lemma SmallWider(d: bv64, k: nat)
    requires Small(d, 1) && 1 <= k <= 3
    ensures Small(d, k)
  {
  }

  lemma PlaceSplit(v: nat, w: nat, g: nat, n: nat)
    requires v < 95 && w < 95 && v != w && n < 3 && GroupOk(g, n)
    ensures v % 32 != w % 32 || g * 3 + v / 32 != g * 3 + w / 32
    ensures GroupOk(g * 3 + v / 32, n + 1) && GroupOk(g * 3 + w / 32, n + 1)
  {
  }

  // The replaced character itself.
  lemma FirstApart(x: bv64, g: nat, n: nat, v: nat, w: nat, rest: Places)
    requires State(x) && n < 3 && GroupOk(g, n) && v < 95 && w < 95 && v != w
    ensures Poly(x, Rest(g, n, [v] + rest)) != Poly(x, Rest(g, n, [w] + rest))
  {
    hide Step, Sym, Poly, Rest, Xor, Small, State, Five, GroupOk;
    assert ([v] + rest)[1..] == rest && ([w] + rest)[1..] == rest;
    PolyGroup(x, g, n, [v] + rest);
    PolyGroup(x, g, n, [w] + rest);
    var a, b := Sym(v % 32), Sym(w % 32);
    SymFive(v % 32);
    SymFive(w % 32);
    SelfSmall(x);
    ApartStep(x, x, a, b, 0);
    PlaceSplit(v, w, g, n);
    if v % 32 != w % 32 {
      SymInjective(v % 32, w % 32);
    }
    SmallWider(Xor(Step(x, a), Step(x, b)), n + 1);
    NextGroup(Step(x, a), Step(x, b), g * 3 + v / 32, g * 3 + w / 32, n + 1, rest);
  }

  // Texts that differ in one character leave different states.
  lemma {:induction false} OneApart(x: bv64, g: nat, n: nat, before: Places, v: nat, w: nat, rest: Places)
    requires State(x) && n < 3 && GroupOk(g, n) && v < 95 && w < 95 && v != w
    ensures Poly(x, Rest(g, n, before + [v] + rest)) != Poly(x, Rest(g, n, before + [w] + rest))
    decreases |before|
  {
    hide Step, Sym, Poly, Rest, State, Five;
    if before == [] {
      FirstApart(x, g, n, v, w, rest);
      assert before + [v] + rest == [v] + rest && before + [w] + rest == [w] + rest;
    } else {
      var a, b, g' := before + [v] + rest, before + [w] + rest, g * 3 + before[0] / 32;
      PolyGroup(x, g, n, a);
      PolyGroup(x, g, n, b);
      assert a[1..] == before[1..] + [v] + rest && b[1..] == before[1..] + [w] + rest;
      var c := Step(x, Sym(before[0] % 32));
      SymFive(before[0] % 32);
      StepState(x, Sym(before[0] % 32));
      if n == 2 {
        SymFive(g');
        StepState(c, Sym(g'));
        OneApart(Step(c, Sym(g')), 0, 0, before[1..], v, w, rest);
      } else {
        OneApart(c, g', n + 1, before[1..], v, w, rest);
      }
    }
  }

  // Replacing one character of the text changes the checksum.
  lemma ComputedDiffers(text: string, i: nat, c: char)
    requires Spelled(text) && i < |text| && c in INPUT_CHARSET && c != text[i]
    ensures Spelled(text[i := c]) && Computed(text) != Computed(text[i := c])
  {
    hide Poly, Expand, Xor, INPUT_CHARSET, Rest, Zeros, Place;
    var vs, ws := PlacesOf(text), PlacesOf(text[i := c]);
    PlaceInjective(c, text[i]);
    var before, rest: Places := vs[..i], vs[i + 1..];
    assert vs == before + [vs[i]] + rest && ws == before + [ws[i]] + rest;
    OneApart(1, 0, 0, before, vs[i], ws[i], rest);
    RestExpands(vs);
    RestExpands(ws);
    var x, y := Poly(1, Expand(vs)), Poly(1, Expand(ws));
    PolyBound(1, Expand(vs));
    PolyBound(1, Expand(ws));
    StaysDifferent(x, y, Zeros(8));
    XorOne(Poly(x, Zeros(8)), Poly(y, Zeros(8)));
  }

  lemma XorOne(x: bv64, y: bv64)
    requires x != y
    ensures Xor(x, 1) != Xor(y, 1)
  {
  }

  lemma ComputedBound(text: string)
    requires Spelled(text)
    ensures Computed(text) < LIMIT
  {
    hide Poly, Expand, Xor, Zeros;
    PolyBound(1, Expand(PlacesOf(text)));
    PolyBound(Poly(1, Expand(PlacesOf(text))), Zeros(8));
    XorZero(Poly(Poly(1, Expand(PlacesOf(text))), Zeros(8)), 1);
  }

  // A correctly checksummed text no longer validates once one character is replaced.
  lemma TextSubstitution(text: string, checksum: string, i: nat, c: char)
    requires |checksum| == 8 && Valid(text, checksum) && i < |text| && c in INPUT_CHARSET && c != text[i]
    ensures !Valid(text[i := c], checksum)
  {
    hide Computed, Matches, Poly;
    ComputedDiffers(text, i, c);
    ComputedBound(text);
    ComputedBound(text[i := c]);
    MatchesSpelled(Computed(text), checksum);
    MatchesIsPack(Computed(text), checksum);
    MatchesIsPack(Computed(text[i := c]), checksum);
  }

  // Nor once one character of the checksum is.
  lemma ChecksumSubstitution(text: string, checksum: string, i: nat, c: char)
    requires |checksum| == 8 && Valid(text, checksum) && i < 8 && c != checksum[i]
    ensures !Valid(text, checksum[i := c])
  {
    hide Computed, Symbol;
  }
}
