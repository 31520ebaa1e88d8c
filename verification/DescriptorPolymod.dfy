// The descriptor checksum of main/descriptor_text.c against section "Checksum" of BIP 380: one step of the
// polynomial remainder is linear and can be undone.
module DescriptorPolymod {

  const LIMIT: bv64 := 0x100_0000_0000    // states have 40 bits

  function Xor(a: bv64, b: bv64): bv64 {
    a ^ b
  }

  // A generator, if its bit of the five shifted out is set.
  function Pick(on: bool, generator: bv64): bv64 {
    if on then generator else 0
  }

  function Combine(p1: bool, p2: bool, p3: bool, p4: bool, p5: bool): bv64 {
    Xor(Pick(p1, 0xf5dee51989),
    Xor(Pick(p2, 0xa9fdca3312),
    Xor(Pick(p3, 0x1bab10e32d),
    Xor(Pick(p4, 0x3706b1677a),
        Pick(p5, 0x644d626ffd)))))
  }

  // The generators selected by the five bits shifted out.
  function Fold(top: bv64): bv64 {
    Combine(top & 1 != 0, top & 2 != 0, top & 4 != 0, top & 8 != 0, top & 16 != 0)
  }

  // The lower 35 bits, moved up by five.
  function Up(chk: bv64): bv64 {
    (chk & 0x7_ffff_ffff) << 5
  }

  function Top(chk: bv64): bv64 {
    chk >> 35
  }

  function Step(chk: bv64, v: bv64): bv64 {
    Xor(Xor(Up(chk), v), Fold(Top(chk)))
  }

  // ---------------------------------------------------------------- exclusive or

  lemma XorAssoc(a: bv64, b: bv64, c: bv64)
    ensures Xor(Xor(a, b), c) == Xor(a, Xor(b, c))
  {
  }

  lemma XorSwap(a: bv64, b: bv64, c: bv64, d: bv64)
    ensures Xor(Xor(a, b), Xor(c, d)) == Xor(Xor(a, c), Xor(b, d))
  {
    hide Xor;
    XorAssoc(a, b, Xor(c, d));
    XorAssoc(b, c, d);
    XorComm(b, c);
    XorAssoc(c, b, d);
    XorAssoc(a, c, Xor(b, d));
  }

  lemma XorComm(a: bv64, b: bv64)
    ensures Xor(a, b) == Xor(b, a)
  {
  }

  lemma XorZero(a: bv64, b: bv64)
    ensures Xor(a, b) == 0 <==> a == b
    ensures Xor(a, 0) == a && Xor(0, b) == b
    ensures a < LIMIT && b < LIMIT ==> Xor(a, b) < LIMIT
  {
  }

  // ---------------------------------------------------------------- the step

  method PolymodStep(chk0: bv64, value: bv64) returns (chk: bv64)
    ensures chk == Step(chk0, value)
  {
    hide Xor, Pick;
    var top := Top(chk0);
    chk := Xor((chk0 & 0x7_ffff_ffff) << 5, value);
    ghost var x := chk;
    ghost var a, b := Pick(top & 1 != 0, 0xf5dee51989), Pick(top & 2 != 0, 0xa9fdca3312);
    ghost var c, d := Pick(top & 4 != 0, 0x1bab10e32d), Pick(top & 8 != 0, 0x3706b1677a);
    ghost var e := Pick(top & 16 != 0, 0x644d626ffd);
    chk := Xor(chk, Pick(top & 1 != 0, 0xf5dee51989));
    chk := Xor(chk, Pick(top & 2 != 0, 0xa9fdca3312));
    chk := Xor(chk, Pick(top & 4 != 0, 0x1bab10e32d));
    chk := Xor(chk, Pick(top & 8 != 0, 0x3706b1677a));
    chk := Xor(chk, Pick(top & 16 != 0, 0x644d626ffd));
    XorAssoc(Xor(Xor(Xor(x, a), b), c), d, e);
    XorAssoc(Xor(Xor(x, a), b), c, Xor(d, e));
    XorAssoc(Xor(x, a), b, Xor(c, Xor(d, e)));
    XorAssoc(x, a, Xor(b, Xor(c, Xor(d, e))));
  }

  lemma StepBound(chk: bv64, v: bv64)
    requires chk < LIMIT && v < 32
    ensures Step(chk, v) < LIMIT
  {
    FoldBound(Top(chk));
    hide Fold;
    UpBound(chk, v);
    hide Up, Xor;
    XorZero(Xor(Up(chk), v), Fold(Top(chk)));
  }

  lemma UpBound(chk: bv64, v: bv64)
    requires v < 32
    ensures Xor(Up(chk), v) < LIMIT
  {
  }

  lemma FoldBound(top: bv64)
    ensures Fold(top) < LIMIT
  {
  }

  // The low five bits of the generators are independent.
  lemma FoldLow(top: bv64)
    requires top < 32 && Fold(top) & 31 == 0
    ensures top == 0
  {
  }

  lemma BitXor(a: bv64, b: bv64)
    ensures (Xor(a, b) & 1 != 0) == ((a & 1 != 0) != (b & 1 != 0))
    ensures (Xor(a, b) & 2 != 0) == ((a & 2 != 0) != (b & 2 != 0))
    ensures (Xor(a, b) & 4 != 0) == ((a & 4 != 0) != (b & 4 != 0))
    ensures (Xor(a, b) & 8 != 0) == ((a & 8 != 0) != (b & 8 != 0))
    ensures (Xor(a, b) & 16 != 0) == ((a & 16 != 0) != (b & 16 != 0))
  {
  }

  lemma PickXor(p: bool, q: bool, g: bv64)
    ensures Pick(p != q, g) == Xor(Pick(p, g), Pick(q, g))
  {
    XorZero(g, g);
    XorZero(g, 0);
    XorZero(0, g);
    XorZero(0, 0);
    hide Xor;
  }

  lemma CombineLinear(p1: bool, p2: bool, p3: bool, p4: bool, p5: bool,
                      q1: bool, q2: bool, q3: bool, q4: bool, q5: bool)
    ensures Combine(p1 != q1, p2 != q2, p3 != q3, p4 != q4, p5 != q5) ==
            Xor(Combine(p1, p2, p3, p4, p5), Combine(q1, q2, q3, q4, q5))
  {
    hide Xor, Pick;
    PickXor(p1, q1, 0xf5dee51989);
    PickXor(p2, q2, 0xa9fdca3312);
    PickXor(p3, q3, 0x1bab10e32d);
    PickXor(p4, q4, 0x3706b1677a);
    PickXor(p5, q5, 0x644d626ffd);
    FiveSwap(Pick(p1, 0xf5dee51989), Pick(p2, 0xa9fdca3312), Pick(p3, 0x1bab10e32d), Pick(p4, 0x3706b1677a),
             Pick(p5, 0x644d626ffd), Pick(q1, 0xf5dee51989), Pick(q2, 0xa9fdca3312), Pick(q3, 0x1bab10e32d),
             Pick(q4, 0x3706b1677a), Pick(q5, 0x644d626ffd));
  }

  lemma FoldBits(a: bv64) returns (p1: bool, p2: bool, p3: bool, p4: bool, p5: bool)
    ensures p1 == (a & 1 != 0) && p2 == (a & 2 != 0) && p3 == (a & 4 != 0) && p4 == (a & 8 != 0) && p5 == (a & 16 != 0)
    ensures Fold(a) == Combine(p1, p2, p3, p4, p5)
  {
    hide Combine;
    p1, p2, p3, p4, p5 := a & 1 != 0, a & 2 != 0, a & 4 != 0, a & 8 != 0, a & 16 != 0;
  }

  lemma FoldLinear(a: bv64, b: bv64)
    ensures Fold(Xor(a, b)) == Xor(Fold(a), Fold(b))
  {
    hide Xor, Combine, Fold;
    BitXor(a, b);
    var p1, p2, p3, p4, p5 := FoldBits(a);
    var q1, q2, q3, q4, q5 := FoldBits(b);
    var r1, r2, r3, r4, r5 := FoldBits(Xor(a, b));
    CombineLinear(p1, p2, p3, p4, p5, q1, q2, q3, q4, q5);
  }

  lemma FiveSwap(a: bv64, b: bv64, c: bv64, d: bv64, e: bv64, a': bv64, b': bv64, c': bv64, d': bv64, e': bv64)
    ensures Xor(Xor(a, a'), Xor(Xor(b, b'), Xor(Xor(c, c'), Xor(Xor(d, d'), Xor(e, e'))))) ==
            Xor(Xor(a, Xor(b, Xor(c, Xor(d, e)))), Xor(a', Xor(b', Xor(c', Xor(d', e')))))
  {
    hide Xor;
    XorSwap(d, d', e, e');
    XorSwap(c, c', Xor(d, e), Xor(d', e'));
    XorSwap(b, b', Xor(c, Xor(d, e)), Xor(c', Xor(d', e')));
    XorSwap(a, a', Xor(b, Xor(c, Xor(d, e))), Xor(b', Xor(c', Xor(d', e'))));
  }

  lemma UpPlain(x: bv64, y: bv64)
    ensures ((x ^ y) & 0x7_ffff_ffff) << 5 == ((x & 0x7_ffff_ffff) << 5) ^ ((y & 0x7_ffff_ffff) << 5)
  {
  }

  lemma UpXor(x: bv64, y: bv64)
    ensures Up(x ^ y) == Up(x) ^ Up(y)
  {
    UpPlain(x, y);
  }

  lemma TopXor(x: bv64, y: bv64)
    ensures Top(x ^ y) == Top(x) ^ Top(y)
  {
  }

  lemma StepLinear(x: bv64, y: bv64, v: bv64, w: bv64)
    ensures Step(Xor(x, y), Xor(v, w)) == Xor(Step(x, v), Step(y, w))
  {
    UpXor(x, y);
    TopXor(x, y);
    hide Fold, Up, Top;
    assert Up(Xor(x, y)) == Xor(Up(x), Up(y)) && Top(Xor(x, y)) == Xor(Top(x), Top(y));
    hide Xor;
    FoldLinear(Top(x), Top(y));
    XorSwap(Up(x), Up(y), v, w);
    XorSwap(Xor(Up(x), v), Xor(Up(y), w), Fold(Top(x)), Fold(Top(y)));
  }

  lemma UpLow(d: bv64)
    ensures Up(d) & 31 == 0
  {
  }

  lemma StepKernel(d: bv64)
    requires d < LIMIT && Step(d, 0) == 0
    ensures d == 0
  {
    XorZero(Up(d), 0);
    XorZero(Up(d), Fold(Top(d)));
    assert Up(d) == Fold(Top(d));
    UpLow(d);
    hide Xor;
    FoldLow(Top(d));
    assert Fold(0) == 0 by {
      FoldZero();
    }
    hide Fold;
    assert Up(d) == 0;
  }

  lemma FoldZero()
    ensures Fold(0) == 0
  {
  }

  // A step can be undone: different states stay different.
  lemma StepInjective(x: bv64, y: bv64, v: bv64)
    requires x < LIMIT && y < LIMIT && x != y
    ensures Step(x, v) != Step(y, v)
  {
    hide Step, Xor;
    StepLinear(x, y, v, v);
    XorZero(v, v);
    XorZero(x, y);
    XorZero(Step(x, v), Step(y, v));
    if Step(Xor(x, y), 0) == 0 {
      StepKernel(Xor(x, y));
    }
  }

  // Below 2 to the 35: nothing is shifted out.
  predicate Low35(d: bv64) {
    d < 0x8_0000_0000
  }

  function Joined(d: bv64, e: bv64): bv64 {
    Xor(Shl5(d), e)
  }

  function Shl5(d: bv64): bv64 {
    d << 5
  }

  lemma UpSmall(d: bv64)
    requires Low35(d)
    ensures Up(d) == Shl5(d) && Top(d) == 0
  {
  }

  // As long as nothing is shifted out, a difference just moves up.
  lemma StepDiff(x: bv64, y: bv64, v: bv64, w: bv64)
    requires Low35(Xor(x, y))
    ensures Xor(Step(x, v), Step(y, w)) == Joined(Xor(x, y), Xor(v, w))
  {
    hide Fold, Up, Top, Xor, Shl5, Low35;
    StepLinear(x, y, v, w);
    UpSmall(Xor(x, y));
    FoldZero();
    XorZero(Joined(Xor(x, y), Xor(v, w)), 0);
  }
}
