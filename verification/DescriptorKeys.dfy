// Key expressions in descriptor text (main/descriptor_text.c): the canonical form of a key and of its child path,
// and where a key ends. Canonicalising twice is canonicalising once.
module DescriptorKeys {
  import opened Options

  const MAX_CHILD_INDEX := 0x7fffffff    // BIP32_MAX_CHILD_INDEX
  const MAX_DIGITS := 10

  datatype Error = Invalid | Unsupported | TooLarge | KeyTooLong | TooMany
  datatype Result<T> = Ok(value: T) | Err(error: Error)

  predicate IsDigit(c: char) {
    '0' <= c <= '9'
  }

  predicate IsHex(c: char) {
    IsDigit(c) || 'a' <= c <= 'f' || 'A' <= c <= 'F'
  }

  function Lower(c: char): char {
    if 'A' <= c <= 'Z' then c - 'A' + 'a' else c
  }

  // ---------------------------------------------------------------- decimal numbers

  function DigitChar(d: nat): (c: char)
    requires d < 10
    ensures IsDigit(c)
  {
    '0' + d as char
  }

  function DigitValue(c: char): (d: nat)
    requires IsDigit(c)
    ensures d < 10 && DigitChar(d) == c
  {
    c as nat - '0' as nat
  }

  // %u
  function Dec(n: nat): (s: string)
    ensures |s| >= 1 && forall i :: 0 <= i < |s| ==> IsDigit(s[i])
  {
    if n < 10 then [DigitChar(n)] else Dec(n / 10) + [DigitChar(n % 10)]
  }

  // At most `left` more digits onto `acc`, and what follows them.
  function ReadNumber(s: string, acc: nat, left: nat): (r: (nat, string))
    ensures |r.1| <= |s|
    decreases |s|
  {
    if s == [] || !IsDigit(s[0]) || left == 0 then (acc, s)
    else ReadNumber(s[1..], acc * 10 + DigitValue(s[0]), left - 1)
  }

  function PowTen(k: nat): nat {
    if k == 0 then 1 else 10 * PowTen(k - 1)
  }

  lemma {:induction false} ReadAppend(s: string, c: char, rest: string, acc: nat, left: nat)
    requires |s| < left && IsDigit(c) && (forall i :: 0 <= i < |s| ==> IsDigit(s[i]))
    ensures ReadNumber(s + ([c] + rest), acc, left) ==
            ReadNumber(rest, ReadNumber(s, acc, left).0 * 10 + DigitValue(c), left - |s| - 1)
    decreases |s|
  {
    var t := s + ([c] + rest);
    if s == [] {
      assert t == [c] + rest && t[1..] == rest;
    } else {
      ReadAppend(s[1..], c, rest, acc * 10 + DigitValue(s[0]), left - 1);
      assert t[0] == s[0] && t[1..] == s[1..] + ([c] + rest);
    }
  }

  lemma {:induction false} DecLength(n: nat, k: nat)
    requires k >= 1 && n < PowTen(k)
    ensures |Dec(n)| <= k
  {
    if n >= 10 {
      DecLength(n / 10, k - 1);
    }
  }

  // A printed number is read back, up to the first character that is not a digit.
  lemma {:induction false} DecReads(n: nat, rest: string, left: nat)
    requires |Dec(n)| <= left && (rest != [] ==> !IsDigit(rest[0]))
    ensures ReadNumber(Dec(n) + rest, 0, left) == (n, rest)
  {
    var last := DigitChar(n % 10);
    assert DigitValue(last) == n % 10;
    if n < 10 {
      assert Dec(n) + rest == [last] + rest && ([last] + rest)[1..] == rest;
    } else {
      DecReads(n / 10, [], left);
      assert Dec(n / 10) + [] == Dec(n / 10);
      assert Dec(n) + rest == Dec(n / 10) + ([last] + rest);
      ReadAppend(Dec(n / 10), last, rest, 0, left);
    }
  }

  // ---------------------------------------------------------------- child paths

  function ChildText(a: nat, b: nat): string {
    "/<" + (Dec(a) + (";" + (Dec(b) + ">/*")))
  }

  // Two unhardened branches in either notation, or the wildcard pair; nothing else.
  function Child(rest: string): Option<string> {
    if rest == "/**" then Some(ChildText(0, 1))
    else if |rest| < 8 || rest[0] != '/' || (rest[1] != '<' && rest[1] != '{') then None
    else
      var sep, close := if rest[1] == '<' then ';' else ',', if rest[1] == '<' then '>' else '}';
      var (a, s) := ReadNumber(rest[2..], 0, MAX_DIGITS);
      if |s| == |rest| - 2 || a > MAX_CHILD_INDEX || s == [] || s[0] != sep then None
      else
        var (b, t) := ReadNumber(s[1..], 0, MAX_DIGITS);
        if |t| == |s| - 1 || b > MAX_CHILD_INDEX || t == [] || t[0] != close || t[1..] != "/*" then None
        else Some(ChildText(a, b))
  }

  method ReadNumberAt(s: string, p0: nat) returns (value: nat, p: nat)
    requires p0 <= |s|
    ensures p0 <= p <= |s| && (value, s[p..]) == ReadNumber(s[p0..], 0, MAX_DIGITS)
    ensures value < 10000000000
  {
    value, p := 0, p0;
    var digits: nat := 0;
    while p < |s| && IsDigit(s[p]) && digits < MAX_DIGITS
      invariant p0 <= p <= |s| && digits <= MAX_DIGITS && value < PowTen(digits)
      invariant ReadNumber(s[p..], value, MAX_DIGITS - digits) == ReadNumber(s[p0..], 0, MAX_DIGITS)
    {
      assert s[p..][1..] == s[p + 1..];
      value := value * 10 + DigitValue(s[p]);
      p := p + 1;
      digits := digits + 1;
    }
    PowTenMonotone(digits, 10);
  }

  lemma {:induction false} PowTenMonotone(a: nat, b: nat)
    requires a <= b
    ensures PowTen(a) <= PowTen(b) && PowTen(10) == 10000000000
  {
    if a < b {
      PowTenMonotone(a, b - 1);
    } else {
      assert PowTen(5) == 100000;
    }
  }

  method CanonicalChild(rest: string) returns (child: Option<string>)
    ensures child == Child(rest)
  {
    hide ReadNumber, ChildText;
    if rest == "/**" {
      return Some(ChildText(0, 1));
    }
    if |rest| < 8 || rest[0] != '/' || (rest[1] != '<' && rest[1] != '{') {
      return None;
    }
    var sep, close := if rest[1] == '<' then ';' else ',', if rest[1] == '<' then '>' else '}';
    var a, p := ReadNumberAt(rest, 2);
    if p == 2 || a > MAX_CHILD_INDEX || p >= |rest| || rest[p] != sep {
      return None;
    }
    var from := p + 1;
    assert rest[p..][1..] == rest[from..];
    var b;
    b, p := ReadNumberAt(rest, from);
    if p == from || b > MAX_CHILD_INDEX || p >= |rest| || rest[p] != close {
      return None;
    }
    assert rest[p..][1..] == rest[p + 1..];
    if rest[p + 1..] != "/*" {
      return None;
    }
    return Some(ChildText(a, b));
  }

  lemma ChildFits(a: nat, b: nat)
    requires a <= MAX_CHILD_INDEX && b <= MAX_CHILD_INDEX
    ensures 8 <= |ChildText(a, b)| <= 26 && |Dec(a)| <= MAX_DIGITS && |Dec(b)| <= MAX_DIGITS
  {
    PowTenMonotone(10, 10);
    DecLength(a, 10);
    DecLength(b, 10);
  }

  // The canonical child path is its own canonical form.
  lemma ChildStable(rest: string)
    requires Child(rest).Some?
    ensures Child(Child(rest).value) == Child(rest) && 8 <= |Child(rest).value| <= 26
  {
    hide ReadNumber, Dec;
    var a, b := ChildBranches(rest);
    ChildFits(a, b);
    ChildReads(a, b);
  }

  lemma ChildBranches(rest: string) returns (a: nat, b: nat)
    requires Child(rest).Some?
    ensures a <= MAX_CHILD_INDEX && b <= MAX_CHILD_INDEX && Child(rest).value == ChildText(a, b)
  {
    hide ReadNumber, ChildText;
    if rest == "/**" {
      a, b := 0, 1;
    } else {
      var (x, s) := ReadNumber(rest[2..], 0, MAX_DIGITS);
      var (y, t) := ReadNumber(s[1..], 0, MAX_DIGITS);
      a, b := x, y;
    }
  }

  lemma ChildReads(a: nat, b: nat)
    requires a <= MAX_CHILD_INDEX && b <= MAX_CHILD_INDEX && |Dec(a)| <= MAX_DIGITS && |Dec(b)| <= MAX_DIGITS
    ensures Child(ChildText(a, b)) == Some(ChildText(a, b))
  {
    hide ReadNumber, Dec;
    var t := Dec(b) + ">/*";
    var s := ";" + t;
    var rest := ChildText(a, b);
    assert rest == "/<" + (Dec(a) + s) && rest[2..] == Dec(a) + s;
    DecReads(a, s, MAX_DIGITS);
    assert s[1..] == t;
    DecReads(b, ">/*", MAX_DIGITS);
    assert ">/*"[1..] == "/*";
  }
}
