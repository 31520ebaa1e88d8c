// descriptor_checksum_valid() of main/descriptor_text.c: the compute-and-compare form accepts exactly what the
// check form of BIP 380 (section "Checksum") accepts, and no substitution of one character goes unnoticed.
module DescriptorChecksum {
  import opened Options
  import opened DescriptorPolymod

  // Three groups of 32, the last one short.
  const INPUT_CHARSET :=
    "0123456789()[],'/*abcdefgh@:$%{}" + "IJKLMNOPQRSTUVWXYZ&+-.;<=>?!^_|~" + "ijklmnopqrstuvwxyzABCDEFGH`#\"\\ "
  const CHECKSUM_CHARSET := "qpzry9x8gf2tvdw0s3jn54khce6mua7l"

  // ---------------------------------------------------------------- symbols

  function Sym(v: nat): bv64
    requires v < 32
  {
    v as bv64
  }

  lemma SymBack(v: nat)
    requires v < 32
    ensures Sym(v) as nat == v && Sym(v) < 32
  {
    var x := v as bv5;
    assert x as nat == v;
    assert Sym(v) == x as bv64;
  }

  lemma SymInjective(v: nat, w: nat)
    requires v < 32 && w < 32 && v != w
    ensures Sym(v) != Sym(w)
  {
    hide Sym;
    SymBack(v);
    SymBack(w);
  }

  // The first place a character has in a set, if any.
  function Index(set_: string, c: char): (r: Option<nat>)
    ensures r.Some? ==> r.value < |set_| && set_[r.value] == c
    ensures r.None? ==> c !in set_
  {
    if set_ == [] then None
    else if set_[0] == c then Some(0)
    else
      var rest := Index(set_[1..], c);
      if rest.None? then None else Some(rest.value + 1)
  }

  ghost predicate Spelled(text: string) {
    forall i :: 0 <= i < |text| ==> text[i] in INPUT_CHARSET
  }

  // Place in the alphabet: the low five bits are a symbol, the rest goes into a group of three.
  ghost function Place(c: char): (v: nat)
    requires c in INPUT_CHARSET
    ensures v < 95
  {
    CharsetSizes();
    Index(INPUT_CHARSET, c).value
  }

  lemma CharsetSizes()
    ensures |INPUT_CHARSET| == 95 && |CHECKSUM_CHARSET| == 32
  {
  }

  lemma PlaceInjective(c: char, d: char)
    requires c in INPUT_CHARSET && d in INPUT_CHARSET && c != d
    ensures Place(c) != Place(d)
  {
  }

  type Places = s: seq<nat> | forall i :: 0 <= i < |s| ==> s[i] < 95

  ghost function PlacesOf(text: string): (r: Places)
    requires Spelled(text)
    ensures |r| == |text| && forall i :: 0 <= i < |r| ==> r[i] == Place(text[i])
  {
    seq(|text|, i requires 0 <= i < |text| => Place(text[i]))
  }

  type Symbols = s: seq<nat> | forall i :: 0 <= i < |s| ==> s[i] < 32

  // The symbol expansion as BIP 380 writes it: three symbols and then their group, a short group at the end.
  function Expand(vs: Places): Symbols {
    if vs == [] then []
    else if |vs| == 1 then [vs[0] % 32, vs[0] / 32]
    else if |vs| == 2 then [vs[0] % 32, vs[1] % 32, vs[0] / 32 * 3 + vs[1] / 32]
    else
      [vs[0] % 32, vs[1] % 32, vs[2] % 32, vs[0] / 32 * 9 + vs[1] / 32 * 3 + vs[2] / 32] + Expand(vs[3..])
  }

  // The same symbols from part way through a group of which `n` are in `group`.
  function Rest(group: nat, n: nat, vs: Places): (r: Symbols)
    requires n < 3 && GroupOk(group, n)
    decreases |vs|
  {
    if vs == [] then if n == 0 then [] else [group]
    else if n == 2 then [vs[0] % 32, group * 3 + vs[0] / 32] + Rest(0, 0, vs[1..])
    else [vs[0] % 32] + Rest(group * 3 + vs[0] / 32, n + 1, vs[1..])
  }

  predicate GroupOk(group: nat, n: nat) {
    && (n == 0 ==> group == 0) && (n == 1 ==> group < 3) && (n == 2 ==> group < 9) && (n == 3 ==> group < 27)
  }

  lemma RestNext(group: nat, n: nat, v: nat, more: Places)
    requires n < 3 && GroupOk(group, n) && v < 95
    ensures n < 2 ==> Rest(group, n, [v] + more) == [v % 32] + Rest(group * 3 + v / 32, n + 1, more)
    ensures n == 2 ==> Rest(group, n, [v] + more) == [v % 32, group * 3 + v / 32] + Rest(0, 0, more)
  {
    assert ([v] + more)[1..] == more;
  }

  lemma RestThree(a: nat, b: nat, c: nat, more: Places)
    requires a < 95 && b < 95 && c < 95
    ensures Rest(0, 0, [a] + ([b] + ([c] + more))) ==
            [a % 32, b % 32, c % 32, a / 32 * 9 + b / 32 * 3 + c / 32] + Rest(0, 0, more)
  {
    hide Rest;
    var g, h := a / 32, a / 32 * 3 + b / 32;
    RestNext(0, 0, a, [b] + ([c] + more));
    RestNext(g, 1, b, [c] + more);
    RestNext(h, 2, c, more);
    FourInFront(a % 32, b % 32, c % 32, h * 3 + c / 32, Rest(0, 0, more));
  }

  lemma FourInFront(a: nat, b: nat, c: nat, d: nat, rest: seq<nat>)
    ensures [a] + ([b] + ([c, d] + rest)) == [a, b, c, d] + rest
  {
  }

  lemma RestShort(a: nat, b: nat)
    requires a < 95 && b < 95
    ensures Rest(0, 0, []) == []
    ensures Rest(0, 0, [a] + []) == [a % 32, a / 32]
    ensures Rest(0, 0, [a] + ([b] + [])) == [a % 32, b % 32, a / 32 * 3 + b / 32]
  {
    RestEnds(a / 32, a / 32 * 3 + b / 32);
    hide Rest;
    RestNext(0, 0, a, []);
    RestNext(0, 0, a, [b] + []);
    RestNext(a / 32, 1, b, []);
  }

  lemma RestEnds(g: nat, h: nat)
    requires g < 3 && h < 9
    ensures Rest(0, 0, []) == [] && Rest(g, 1, []) == [g] && Rest(h, 2, []) == [h]
  {
  }

  lemma {:induction false} RestExpands(vs: Places)
    ensures Rest(0, 0, vs) == Expand(vs)
  {
    hide Rest;
    if |vs| >= 3 {
      assert vs == [vs[0]] + ([vs[1]] + ([vs[2]] + vs[3..]));
      RestThree(vs[0], vs[1], vs[2], vs[3..]);
      RestExpands(vs[3..]);
    } else if |vs| == 2 {
      assert vs == [vs[0]] + ([vs[1]] + []);
      RestShort(vs[0], vs[1]);
    } else if |vs| == 1 {
      assert vs == [vs[0]] + [];
      RestShort(vs[0], 0);
    } else {
      RestShort(0, 0);
    }
  }

  function Poly(chk: bv64, syms: Symbols): bv64
    decreases |syms|
  {
    if syms == [] then chk else Poly(Step(chk, Sym(syms[0])), syms[1..])
  }

  function Zeros(n: nat): (r: Symbols)
    ensures |r| == n
  {
    if n == 0 then [] else [0] + Zeros(n - 1)
  }

  // ---------------------------------------------------------------- reading the result

  // chk >> 5 * k
  function Down(chk: bv64, k: nat): bv64 {
    if k == 0 then chk else Down(chk >> 5, k - 1)
  }

  function Low5(chk: bv64): (v: bv64)
    ensures v < 32
  {
    chk & 31
  }

  // Symbol i of eight, most significant first.
  function Symbol(chk: bv64, i: nat): (v: bv64)
    requires i < 8
    ensures v < 32
  {
    Low5(Down(chk, 7 - i))
  }

  // What the computed checksum must say.
  ghost function Computed(text: string): bv64
    requires Spelled(text)
  {
    Xor(Poly(Poly(1, Expand(PlacesOf(text))), Zeros(8)), 1)
  }

  ghost predicate Matches(chk: bv64, checksum: string)
    requires |checksum| == 8
  {
    CharsetSizes();
    forall i :: 0 <= i < 8 ==> checksum[i] == CHECKSUM_CHARSET[Symbol(chk, i) as nat]
  }

  ghost predicate Valid(text: string, checksum: string)
    requires |checksum| == 8
  {
    Spelled(text) && Matches(Computed(text), checksum)
  }

  // ---------------------------------------------------------------- the function

  lemma PolyNext(chk: bv64, s: nat, syms: Symbols)
    requires s < 32
    ensures Poly(chk, [s] + syms) == Poly(Step(chk, Sym(s)), syms)
  {
    assert ([s] + syms)[1..] == syms;
  }

  lemma PolyGroup(chk: bv64, group: nat, n: nat, vs: Places)
    requires vs != [] && n < 3 && GroupOk(group, n)
    ensures var g, c := group * 3 + vs[0] / 32, Step(chk, Sym(vs[0] % 32));
            Poly(chk, Rest(group, n, vs)) ==
            if n == 2 then Poly(Step(c, Sym(g)), Rest(0, 0, vs[1..])) else Poly(c, Rest(g, n + 1, vs[1..]))
  {
    hide Step, Sym, Poly;
    var g := group * 3 + vs[0] / 32;
    if n == 2 {
      var rest := Rest(0, 0, vs[1..]);
      assert Rest(group, n, vs) == [vs[0] % 32] + ([g] + rest);
      PolyNext(chk, vs[0] % 32, [g] + rest);
      PolyNext(Step(chk, Sym(vs[0] % 32)), g, rest);
    } else {
      PolyNext(chk, vs[0] % 32, Rest(g, n + 1, vs[1..]));
    }
  }

  lemma PolyEnd(chk: bv64, group: nat, n: nat)
    requires n < 3 && GroupOk(group, n)
    ensures Poly(chk, Rest(group, n, [])) == if n == 0 then chk else Step(chk, Sym(group))
  {
    hide Poly, Step, Sym;
    PolyNone(chk);
    if n > 0 {
      assert [group] + [] == [group];
      PolyNext(chk, group, []);
      PolyNone(Step(chk, Sym(group)));
    }
  }

  // One character, and its group when it is the third.
  method AbsorbPlace(chk0: bv64, group0: nat, n0: nat, value: nat, ghost vs: Places)
    returns (chk: bv64, group: nat, n: nat)
    requires value < 95 && n0 < 3 && GroupOk(group0, n0)
    ensures n < 3 && GroupOk(group, n)
    ensures vs != [] && vs[0] == value ==> Poly(chk0, Rest(group0, n0, vs)) == Poly(chk, Rest(group, n, vs[1..]))
  {
    hide Step, Sym, Poly, Rest;
    if vs != [] {
      PolyGroup(chk0, group0, n0, vs);
    }
    chk := PolymodStep(chk0, Sym(value % 32));
    group := group0 * 3 + value / 32;
    n := n0 + 1;
    if n == 3 {
      chk := PolymodStep(chk, Sym(group));
      group, n := 0, 0;
    }
  }

  method AbsorbText(text: string) returns (ok: bool, chk: bv64)
    ensures ok == Spelled(text)
    ensures ok ==> chk == Poly(1, Expand(PlacesOf(text)))
  {
    hide Step, Sym, Poly, Rest, Expand, INPUT_CHARSET;
    ok, chk := true, 1;
    var group: nat, groupLen: nat := 0, 0;
    for i := 0 to |text|
      invariant groupLen < 3 && GroupOk(group, groupLen) && Spelled(text[..i])
      invariant Spelled(text) ==>
                  Poly(chk, Rest(group, groupLen, PlacesOf(text)[i..])) == Poly(1, Rest(0, 0, PlacesOf(text)))
    {
      var pos := Index(INPUT_CHARSET, text[i]);
      if pos.None? {
        return false, chk;
      }
      CharsetSizes();
      ghost var vs: Places := if Spelled(text) then PlacesOf(text)[i..] else [];
      chk, group, groupLen := AbsorbPlace(chk, group, groupLen, pos.value, vs);
      assert Spelled(text) ==> vs[0] == pos.value && vs[1..] == PlacesOf(text)[i + 1..];
      assert text[..i + 1] == text[..i] + [text[i]];
    }
    assert text[..|text|] == text;
    assert PlacesOf(text)[|text|..] == [];
    PolyEnd(chk, group, groupLen);
    RestExpands(PlacesOf(text));
    if groupLen > 0 {
      chk := PolymodStep(chk, Sym(group));
    }
  }

  method ChecksumValid(text: string, checksum: string) returns (ok: bool)
    requires |checksum| == 8
    ensures ok == Valid(text, checksum)
  {
    hide Step, Poly, Xor, Expand, Matches, INPUT_CHARSET;
    var chk: bv64;
    ok, chk := AbsorbText(text);
    if !ok {
      return;
    }
    chk := EightZeros(chk);
    chk := Xor(chk, 1);
    ok := Compare(chk, checksum);
  }

  method EightZeros(chk0: bv64) returns (chk: bv64)
    ensures chk == Poly(chk0, Zeros(8))
  {
    hide Poly, Step;
    chk := chk0;
    for i := 0 to 8
      invariant Poly(chk, Zeros(8 - i)) == Poly(chk0, Zeros(8))
    {
      PolyZero(chk, 8 - i);
      chk := PolymodStep(chk, 0);
    }
    PolyNone(chk);
  }

  lemma PolyZero(chk: bv64, n: nat)
    requires n > 0
    ensures Poly(chk, Zeros(n)) == Poly(Step(chk, 0), Zeros(n - 1))
  {
    assert Sym(0) == 0;
    PolyNext(chk, 0, Zeros(n - 1));
  }

  lemma PolyNone(chk: bv64)
    ensures Poly(chk, []) == chk == Poly(chk, Zeros(0))
  {
  }

  method Compare(chk: bv64, checksum: string) returns (ok: bool)
    requires |checksum| == 8
    ensures ok == Matches(chk, checksum)
  {
    hide Symbol;
    CharsetSizes();
    for i := 0 to 8
      invariant forall k :: 0 <= k < i ==> checksum[k] == CHECKSUM_CHARSET[Symbol(chk, k) as nat]
    {
      if checksum[i] != CHECKSUM_CHARSET[Symbol(chk, i) as nat] {
        return false;
      }
    }
    return true;
  }

  // ---------------------------------------------------------------- the check form of BIP 380

  lemma {:induction false} PolyBound(chk: bv64, syms: Symbols)
    requires chk < LIMIT
    ensures Poly(chk, syms) < LIMIT
    decreases |syms|
  {
    hide Step, Sym;
    if syms != [] {
      SymBack(syms[0]);
      StepBound(chk, Sym(syms[0]));
      PolyBound(Step(chk, Sym(syms[0])), syms[1..]);
    }
  }

  lemma {:induction false} PolyConcat(chk: bv64, a: Symbols, b: Symbols)
    ensures Poly(chk, a + b) == Poly(Poly(chk, a), b)
    decreases |a|
  {
    hide Step, Sym;
    if a == [] {
      assert a + b == b;
    } else {
      assert (a + b)[1..] == a[1..] + b;
      PolyConcat(Step(chk, Sym(a[0])), a[1..], b);
    }
  }

  // Feeding symbols is feeding zeros, plus the symbols fed from nothing.
  lemma {:induction false} PolyLinear(x: bv64, y: bv64, syms: Symbols)
    ensures Poly(Xor(x, y), syms) == Xor(Poly(x, Zeros(|syms|)), Poly(y, syms))
    decreases |syms|
  {
    hide Poly, Step, Xor, Sym, Zeros;
    if syms == [] {
      PolyNone(x);
      PolyNone(y);
      PolyNone(Xor(x, y));
    } else {
      var v := Sym(syms[0]);
      assert syms == [syms[0]] + syms[1..];
      PolyNext(Xor(x, y), syms[0], syms[1..]);
      PolyNext(y, syms[0], syms[1..]);
      PolyZero(x, |syms|);
      StepLinear(x, y, 0, v);
      XorZero(0, v);
      XorZero(v, 0);
      PolyLinear(Step(x, 0), Step(y, v), syms[1..]);
    }
  }

  // Below 2 to the 5k.
  predicate Small(d: bv64, k: nat)
    requires k < 8
  {
    d < (if k == 0 then 1 else if k == 1 then 0x20 else if k == 2 then 0x400 else if k == 3 then 0x8000
         else if k == 4 then 0x10_0000 else if k == 5 then 0x200_0000 else if k == 6 then 0x4000_0000
         else 0x8_0000_0000)
  }

  lemma ShiftPlain(d: bv64, v: bv64)
    requires d < 0x8_0000_0000 && v < 32
    ensures ((d << 5) ^ v) & 31 == v && ((d << 5) ^ v) >> 5 == d
  {
  }

  lemma JoinedIs(d: bv64, v: bv64)
    ensures Joined(d, v) == (d << 5) ^ v
  {
  }

  lemma JoinedParts(d: bv64, v: bv64)
    requires Low35(d) && Five(v)
    ensures Low5(Joined(d, v)) == v && Joined(d, v) >> 5 == d
  {
    JoinedIs(d, v);
    ShiftPlain(d, v);
  }

  predicate Five(v: bv64) {
    v < 32
  }

  lemma SymbolUp(d: bv64, v: bv64, i: nat)
    requires Low35(d) && Five(v) && i < 8
    ensures Symbol(Joined(d, v), i) == if i == 7 then v else Symbol(d, i + 1)
  {
    JoinedParts(d, v);
    hide Joined, Low5, Low35, Five;
  }

  lemma SmallPlain(d: bv64, v: bv64, k: nat)
    requires k < 7 && Small(d, k) && v < 32
    ensures Small((d << 5) ^ v, k + 1)
  {
  }

  lemma SmallUp(d: bv64, v: bv64, k: nat)
    requires k < 7 && Small(d, k) && Five(v)
    ensures Small(Joined(d, v), k + 1)
  {
    SmallPlain(d, v, k);
    JoinedIs(d, v);
    hide Small, Joined;
  }

  lemma SmallLow(d: bv64, k: nat)
    requires k < 8 && Small(d, k)
    ensures Low35(d)
  {
  }

  // A step from a state with nothing in its top five bits.
  lemma StepUp(d: bv64, v: bv64)
    requires Low35(d)
    ensures Step(d, v) == Joined(d, v)
  {
    hide Fold, Up, Top, Xor, Shl5, Low35;
    UpSmall(d);
    FoldZero();
    XorZero(Joined(d, v), 0);
  }
}
