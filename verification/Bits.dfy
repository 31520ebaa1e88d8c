// Powers of two, shifts, masks and bit reversal, written so that every step is one bit.
module Bits {

  type Byte = x: nat | x < 256

  function Pow2(n: nat): (p: nat)
    ensures p >= 1
  {
    if n == 0 then 1 else 2 * Pow2(n - 1)
  }

  lemma {:induction false} Pow2Monotone(a: nat, b: nat)
    requires a <= b
    ensures Pow2(a) <= Pow2(b)
  {
    if a < b {
      Pow2Monotone(a, b - 1);
    }
  }

  lemma Distribute(a: nat, b: nat, p: nat)
    ensures (a + b) * p == a * p + b * p
  {
  }

  lemma Regroup(a: nat, p: nat, q: nat)
    ensures a * p * q == a * (q * p) == a * (p * q)
  {
  }

  lemma {:induction false} Pow2Sum(a: nat, b: nat)
    ensures Pow2(a + b) == Pow2(a) * Pow2(b)
  {
    if a > 0 {
      Pow2Sum(a - 1, b);
      Regroup(2, Pow2(a - 1), Pow2(b));
    }
  }

  lemma Pow2Values()
    ensures Pow2(7) == 128 && Pow2(10) == 1024 && Pow2(15) == 32768 && Pow2(16) == 65536
  {
    assert Pow2(5) == 32;
    assert Pow2(10) == 1024;
    assert Pow2(15) == 32768;
  }

  lemma DivModUnique(x: nat, m: nat, q: nat, r: nat)
    requires m > 0 && x == m * q + r && r < m
    ensures x / m == q && x % m == r
  {
    var d := x / m - q;
    assert m * d == r - x % m;
    assert d >= 1 ==> m * d >= m;
    assert d <= -1 ==> m * d + m <= 0;
  }

  // x >> n
  function Shr(x: nat, n: nat): (r: nat)
  {
    if n == 0 then x else Shr(x / 2, n - 1)
  }

  // x & ((1 << n) - 1)
  function Low(x: nat, n: nat): (r: nat)
    ensures r < Pow2(n)
  {
    if n == 0 then 0 else x % 2 + 2 * Low(x / 2, n - 1)
  }

  lemma {:induction false} LowSmall(x: nat, n: nat)
    requires x < Pow2(n)
    ensures Low(x, n) == x
  {
    if n > 0 {
      LowSmall(x / 2, n - 1);
    }
  }

  lemma {:induction false} ShrShr(x: nat, a: nat, b: nat)
    ensures Shr(Shr(x, a), b) == Shr(x, a + b)
  {
    if a > 0 {
      ShrShr(x / 2, a - 1, b);
    }
  }

  lemma {:induction false} ShrBound(x: nat, a: nat, b: nat)
    requires x < Pow2(a + b)
    ensures Shr(x, a) < Pow2(b)
  {
    if a > 0 {
      ShrBound(x / 2, a - 1, b);
    }
  }

  lemma LowStep(bit: nat, rest: nat, n: nat)
    requires bit < 2
    ensures Low(bit + 2 * rest, n + 1) == bit + 2 * Low(rest, n)
  {
  }

  lemma {:induction false} LowLow(x: nat, a: nat, b: nat)
    requires a <= b
    ensures Low(Low(x, b), a) == Low(x, a)
  {
    if a > 0 {
      LowLow(x / 2, a - 1, b - 1);
      LowStep(x % 2, Low(x / 2, b - 1), a - 1);
    }
  }

  // Bit n splits off the top of the low n+1 bits.
  lemma {:induction false} LowTop(x: nat, n: nat)
    ensures Low(x, n + 1) == Low(x, n) + (if Shr(x, n) % 2 == 1 then Pow2(n) else 0)
  {
    if n > 0 {
      LowTop(x / 2, n - 1);
    }
  }

  // The low `len` bits of `code`, most significant first, as they are put on the wire.
  function Reverse(code: nat, len: nat): (r: nat)
    ensures r < Pow2(len)
  {
    if len == 0 then 0 else Shr(code, len - 1) % 2 + 2 * Reverse(code, len - 1)
  }

  lemma ReverseTop(code: nat, len: nat)
    requires len > 0
    ensures Reverse(code, len) == Shr(code, len - 1) % 2 + 2 * Reverse(code, len - 1)
  {
  }

  // Dropping low-order code bits keeps the first transmitted bits.
  lemma {:induction false} ReversePrefix(code: nat, len: nat, d: nat)
    requires d <= len
    ensures Low(Reverse(code, len), d) == Reverse(Shr(code, len - d), d)
  {
    hide Reverse, Shr, Low;
    if d == 0 {
      NoBits(Reverse(code, len), Shr(code, len));
    } else {
      ReverseTop(code, len);
      ReverseTop(Shr(code, len - d), d);
      ReversePrefix(code, len - 1, d - 1);
      ShrShr(code, len - d, d - 1);
      LowStep(Shr(code, len - 1) % 2, Reverse(code, len - 1), d - 1);
    }
  }

  lemma NoBits(x: nat, y: nat)
    ensures Low(x, 0) == 0 == Reverse(y, 0)
  {
  }

  lemma {:induction false} ShrLow(x: nat, n: nat, k: nat)
    requires k < n
    ensures Shr(Low(x, n), k) % 2 == Shr(x, k) % 2
  {
    if k > 0 {
      ShrLow(x / 2, n - 1, k - 1);
    }
  }

  // Equal reversals mean equal low bits.
  lemma {:induction false} ReverseInjective(x: nat, y: nat, len: nat)
    requires Reverse(x, len) == Reverse(y, len)
    ensures Low(x, len) == Low(y, len)
  {
    if len > 0 {
      var rx, ry := Reverse(x, len - 1), Reverse(y, len - 1);
      assert Shr(x, len - 1) % 2 == Shr(y, len - 1) % 2 && rx == ry;
      ReverseInjective(x, y, len - 1);
      LowTop(x, len - 1);
      LowTop(y, len - 1);
    }
  }
}
