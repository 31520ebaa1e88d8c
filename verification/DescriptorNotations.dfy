// How keys and child paths may be written in descriptor text, and what main/descriptor_text.c makes of each notation,
// in literal text.
module DescriptorNotations {
  import opened Options
  import opened DescriptorKeys
  import opened DescriptorTokens

  // ---------------------------------------------------------------- child paths

  predicate Digits(s: string) {
    1 <= |s| <= 10 && forall i :: 0 <= i < |s| ==> '0' <= s[i] <= '9'
  }

  function Number(s: string): nat
    requires forall i :: 0 <= i < |s| ==> '0' <= s[i] <= '9'
  {
    if s == "" then 0 else 10 * Number(s[..|s| - 1]) + (s[|s| - 1] - '0') as nat
  }

  lemma {:induction false} DigitsRead(s: string, rest: string, left: nat)
    requires |s| <= left && (forall i :: 0 <= i < |s| ==> '0' <= s[i] <= '9')
    requires |s| == left || rest == "" || !IsDigit(rest[0])
    ensures ReadNumber(s + rest, 0, left) == (Number(s), rest)
    decreases |s|, 0
  {
    if s == "" {
      assert s + rest == rest;
    } else {
      var n := |s| - 1;
      var most, last := s[..n], s[n];
      NumberRead(most, left);
      assert s + rest == most + ([last] + rest);
      ReadAppend(most, last, rest, 0, left);
    }
  }

  lemma {:induction false} NumberRead(s: string, left: nat)
    requires |s| < left && forall i :: 0 <= i < |s| ==> '0' <= s[i] <= '9'
    ensures ReadNumber(s, 0, left).0 == Number(s)
    decreases |s|, 1
  {
    DigitsRead(s, "", left);
    assert s + "" == s;
  }

  // Up to ten digits, as many as there are.
  lemma {:induction false} ReadStops(s: string, acc: nat, left: nat)
    ensures var r := ReadNumber(s, acc, left).1;
            && |s| - left <= |r| <= |s| && s[|s| - |r|..] == r
            && (forall i :: 0 <= i < |s| - |r| ==> '0' <= s[i] <= '9')
            && (r == "" || |s| - |r| == left || !IsDigit(r[0]))
    decreases |s|
  {
    if s != "" && IsDigit(s[0]) && left > 0 {
      ReadStops(s[1..], acc * 10 + DigitValue(s[0]), left - 1);
      var r := ReadNumber(s, acc, left).1;
      forall i | 0 <= i < |s| - |r| ensures '0' <= s[i] <= '9' {
        assert i > 0 ==> s[i] == s[1..][i - 1];
      }
    }
  }

  // '/<a;b>/*' or '/{a,b}/*'
  function Written(curly: bool, a: string, b: string): string {
    if curly then "/{" + (a + ("," + (b + "}/*"))) else "/<" + (a + (";" + (b + ">/*")))
  }

  predicate Branches(a: string, b: string) {
    Digits(a) && Digits(b) && Number(a) <= 0x7fff_ffff && Number(b) <= 0x7fff_ffff
  }

  // Either notation of two unhardened branches is taken, as these branches in this order, printed anew.
  lemma BranchesTaken(curly: bool, a: string, b: string)
    requires Digits(a) && Digits(b)
    ensures Child(Written(curly, a, b)) ==
            if Branches(a, b) then Some("/<" + (Dec(Number(a)) + (";" + (Dec(Number(b)) + ">/*")))) else None
  {
    hide Dec, ReadNumber;
    var rest := Written(curly, a, b);
    var end := if curly then "}/*" else ">/*";
    var s := (if curly then "," else ";") + (b + end);
    assert rest[2..] == a + s && s[1..] == b + end && end[1..] == "/*" && rest != "/**";
    DigitsRead(a, s, MAX_DIGITS);
    DigitsRead(b, end, MAX_DIGITS);
  }

  lemma WildcardTaken()
    ensures Child("/**") == Some("/<0;1>/*")
  {
    assert Dec(0) == "0" && Dec(1) == "1";
    hide Dec;
    assert "/<" + ("0" + (";" + ("1" + ">/*"))) == "/<0;1>/*";
  }

  // Nothing else is taken.
  lemma OnlyBranches(rest: string) returns (curly: bool, a: string, b: string)
    requires Child(rest).Some? && rest != "/**"
    ensures Branches(a, b) && rest == Written(curly, a, b)
  {
    ChildShape(rest);
    hide Dec, ReadNumber, Child, Number;
    curly := rest[1] == '{';
    var x := rest[2..];
    var s := ReadNumber(x, 0, MAX_DIGITS).1;
    a := NumberFront(x);
    b := NumberFront(s[1..]);
    var t := ReadNumber(s[1..], 0, MAX_DIGITS).1;
    Rejoin(rest, s, t, curly, a, b);
  }

  // What a child path other than the wildcard looks like.
  lemma ChildShape(rest: string)
    requires Child(rest).Some? && rest != "/**"
    ensures |rest| >= 8 && rest[0] == '/' && (rest[1] == '<' || rest[1] == '{')
    ensures var (x, s) := ReadNumber(rest[2..], 0, MAX_DIGITS);
            && |s| < |rest[2..]| && x <= 0x7fff_ffff && s != "" && s[0] == (if rest[1] == '{' then ',' else ';')
            && var (y, t) := ReadNumber(s[1..], 0, MAX_DIGITS);
               && |t| < |s[1..]| && y <= 0x7fff_ffff && t != "" && t[0] == (if rest[1] == '{' then '}' else '>')
               && t[1..] == "/*"
  {
    hide ReadNumber, ChildText;
  }

  lemma NumberFront(s: string) returns (a: string)
    requires |ReadNumber(s, 0, MAX_DIGITS).1| < |s|
    ensures Digits(a) && s == a + ReadNumber(s, 0, MAX_DIGITS).1 && Number(a) == ReadNumber(s, 0, MAX_DIGITS).0
  {
    hide ReadNumber;
    var r := ReadNumber(s, 0, MAX_DIGITS).1;
    ReadStops(s, 0, MAX_DIGITS);
    a := s[..|s| - |r|];
    assert s == a + r;
    DigitsRead(a, r, MAX_DIGITS);
  }

  lemma Rejoin(rest: string, s: string, t: string, curly: bool, a: string, b: string)
    requires |rest| >= 2 && rest[0] == '/' && rest[1] == (if curly then '{' else '<')
    requires rest[2..] == a + s && s != "" && s[0] == (if curly then ',' else ';')
    requires s[1..] == b + t && t != "" && t[0] == (if curly then '}' else '>') && t[1..] == "/*"
    ensures rest == Written(curly, a, b)
  {
    assert t == if curly then "}/*" else ">/*";
    assert s == [s[0]] + (b + t);
    assert rest == [rest[0]] + ([rest[1]] + (a + s));
  }

  // ---------------------------------------------------------------- keys

  predicate HexDigit(c: char) {
    '0' <= c <= '9' || 'a' <= c <= 'f' || 'A' <= c <= 'F'
  }

  function LowerHex(c: char): char {
    if c == 'A' then 'a' else if c == 'B' then 'b' else if c == 'C' then 'c' else if c == 'D' then 'd'
    else if c == 'E' then 'e' else if c == 'F' then 'f' else c
  }

  function LowerAll(s: string): (r: string)
    ensures |r| == |s|
  {
    if s == "" then "" else [LowerHex(s[0])] + LowerAll(s[1..])
  }

  // Apostrophes become 'h'.
  function HardenAll(s: string): (r: string)
    ensures |r| == |s|
  {
    if s == "" then "" else [if s[0] == '\'' then 'h' else s[0]] + HardenAll(s[1..])
  }

  // Digits, slashes and hardening marks, after a slash.
  predicate OriginPath(path: string) {
    && (path == "" || path[0] == '/')
    && forall i :: 0 <= i < |path| ==> '0' <= path[i] <= '9' || path[i] == '/' || path[i] == 'h' || path[i] == '\''
  }

  // '[fingerprint/path]body' and a child path
  function KeyText(fp: string, path: string, body: string, rest: string): string {
    "[" + (fp + (path + ("]" + (body + rest))))
  }

  predicate KeyOk(fp: string, path: string, body: string) {
    && |fp| == 8 && (forall i :: 0 <= i < 8 ==> HexDigit(fp[i])) && OriginPath(path)
    && body != "" && '/' !in body
  }

  // Copied as long as there is room for the whole origin.
  function Copied(text: string, length: nat): Result<string> {
    if length < VALUE_SIZE then Ok(text) else Err(KeyTooLong)
  }

  lemma {:induction false} PathCopied(path: string, at: nat)
    requires at >= 9
    requires forall i :: 0 <= i < |path| ==>
               '0' <= path[i] <= '9' || path[i] == '/' || path[i] == 'h' || path[i] == '\''
    ensures CopyOrigin(path + "]", at, at, VALUE_SIZE) == Copied(HardenAll(path) + "]", at + |path| + 1)
    decreases |path|
  {
    var s := path + "]";
    if path == "" {
      assert s == "]" && s[1..] == "";
      CopyNothing(at + 1, VALUE_SIZE);
      assert [']'] + [] == "]" && HardenAll(path) + "]" == "]";
    } else {
      assert s[0] == path[0] && s[1..] == path[1..] + "]";
      PathCopied(path[1..], at + 1);
      var c := if path[0] == '\'' then 'h' else path[0];
      assert [c] + (HardenAll(path[1..]) + "]") == HardenAll(path) + "]";
    }
  }

  lemma {:induction false} FingerprintCopied(fp: string, path: string, at: nat)
    requires 1 <= at <= 9 && |fp| == 9 - at && OriginPath(path)
    requires forall i :: 0 <= i < |fp| ==> HexDigit(fp[i])
    ensures CopyOrigin(fp + (path + "]"), at, at, VALUE_SIZE) ==
            Copied(LowerAll(fp) + (HardenAll(path) + "]"), 10 + |path|)
    decreases |fp|
  {
    var s, tail := fp + (path + "]"), HardenAll(path) + "]";
    if fp == "" {
      assert s == path + "]" && LowerAll(fp) + tail == tail;
      PathCopied(path, 9);
    } else {
      assert s[0] == fp[0] && s[1..] == fp[1..] + (path + "]");
      FingerprintCopied(fp[1..], path, at + 1);
      assert [LowerHex(fp[0])] + (LowerAll(fp[1..]) + tail) == LowerAll(fp) + tail;
      assert Lower(fp[0]) == LowerHex(fp[0]);
    }
  }

  lemma OriginCopied(fp: string, path: string)
    requires KeyOk(fp, path, "x")
    ensures CopyOrigin("[" + (fp + (path + "]")), 0, 0, VALUE_SIZE) ==
            Copied("[" + (LowerAll(fp) + (HardenAll(path) + "]")), 10 + |path|)
  {
    var s := "[" + (fp + (path + "]"));
    assert s[0] == '[' && s[1..] == fp + (path + "]");
    FingerprintCopied(fp, path, 1);
    assert ['['] + (LowerAll(fp) + (HardenAll(path) + "]")) == "[" + (LowerAll(fp) + (HardenAll(path) + "]"));
  }

  // A key with its origin: the fingerprint in small letters, the path with 'h' for hardened steps, the rest as it was,
  // and the child path in its one form. Refused if that takes more than 159 characters, or without such a child path.
  lemma KeyTaken(fp: string, path: string, body: string, rest: string)
    requires KeyOk(fp, path, body) && (rest == "" || rest[0] == '/')
    ensures CanonicalKey(KeyText(fp, path, body, rest), VALUE_SIZE) ==
            if 10 + |path| + |body| > 159 then Err(KeyTooLong)
            else if Child(rest).None? then Err(Unsupported)
            else Ok(("[" + (LowerAll(fp) + (HardenAll(path) + ("]" + body))), Child(rest).value))
  {
    hide CopyOrigin, Child, LowerAll, HardenAll, FirstClose, FirstSlash, KeyOk;
    Bracketed(fp, path, body + rest);
    Bracketed(LowerAll(fp), HardenAll(path), body);
    BodyGiven(fp, path, body);
    OriginEnds(fp, path, body + rest);
    OriginCopied(fp, path);
    BodyEnds(body, rest);
  }

  lemma Bracketed(a: string, b: string, tail: string)
    ensures "[" + (a + (b + ("]" + tail))) == "[" + (a + (b + "]")) + tail
  {
  }

  lemma BodyGiven(fp: string, path: string, body: string)
    requires KeyOk(fp, path, body)
    ensures KeyOk(fp, path, "x") && body != "" && '/' !in body
  {
  }

  lemma OriginEnds(fp: string, path: string, tail: string)
    requires KeyOk(fp, path, "x")
    ensures var origin := "[" + (fp + (path + "]"));
            var tok := origin + tail;
            && tok[0] == '[' && FirstClose(tok) == 9 + |path| && |origin| == 10 + |path|
            && tok[..10 + |path|] == origin && tok[10 + |path|..] == tail && (tok[9] == '/' || tok[9] == ']')
  {
    hide FirstClose;
    var tok := "[" + (fp + (path + "]")) + tail;
    forall i | 0 <= i < 9 + |path| ensures tok[i] != ']' {
      if 1 <= i < 9 {
        assert tok[i] == fp[i - 1];
      } else if i >= 9 {
        assert tok[i] == path[i - 9];
      }
    }
    FirstCloseIs(tok, 9 + |path|);
    assert tok[9] == if path == "" then ']' else path[0];
  }

  lemma BodyEnds(body: string, rest: string)
    requires '/' !in body && (rest == "" || rest[0] == '/')
    ensures FirstSlash(body + rest) == |body| && (body + rest)[..|body|] == body && (body + rest)[|body|..] == rest
  {
    hide FirstSlash;
    var tail := body + rest;
    if rest == "" {
      assert tail == body;
      NoSlash(body);
    } else {
      forall i | 0 <= i < |body| ensures tail[i] != '/' {
        assert tail[i] == body[i];
      }
      FirstSlashIs(tail, |body|);
    }
  }

  lemma {:induction false} NoSlash(s: string)
    requires '/' !in s
    ensures FirstSlash(s) == |s|
  {
    if s != "" {
      NoSlash(s[1..]);
    }
  }

  // A key without an origin is refused as such.
  lemma OriginRequired(tok: string)
    requires tok != "" && tok[0] != '['
    ensures CanonicalKey(tok, VALUE_SIZE) == Err(Unsupported)
  {
  }

  // A wallet's export: capital letters, apostrophes and curly branches.
  lemma ExportedKey()
    ensures CanonicalKey("[D34DB33F/48'/0h]xpub6ERA/{0,1}/*", VALUE_SIZE) ==
            Ok(("[d34db33f/48h/0h]xpub6ERA", "/<0;1>/*"))
  {
    ExportedParts();
    ExportedChild();
    LowerIs();
    HardenIs();
    hide CanonicalKey, Child, LowerAll, HardenAll, KeyOk, KeyText;
    KeyTaken("D34DB33F", "/48'/0h", "xpub6ERA", "/{0,1}/*");
    assert "[" + ("d34db33f" + ("/48h/0h" + ("]" + "xpub6ERA"))) == "[d34db33f/48h/0h]xpub6ERA";
  }

  lemma ExportedParts()
    ensures KeyText("D34DB33F", "/48'/0h", "xpub6ERA", "/{0,1}/*") == "[D34DB33F/48'/0h]xpub6ERA/{0,1}/*"
    ensures KeyOk("D34DB33F", "/48'/0h", "xpub6ERA")
  {
  }

  lemma ExportedChild()
    ensures Child("/{0,1}/*") == Some("/<0;1>/*")
  {
    assert "0"[..0] == "" && "1"[..0] == "" && Number("0") == 0 && Number("1") == 1 && Dec(0) == "0" && Dec(1) == "1";
    hide Child, Dec, Number;
    BranchesTaken(true, "0", "1");
    assert "/{" + ("0" + ("," + ("1" + "}/*"))) == "/{0,1}/*" && "/<" + ("0" + (";" + ("1" + ">/*"))) == "/<0;1>/*";
  }

  lemma {:induction false} LowerAllIs(s: string, t: string)
    requires |s| == |t| && forall i :: 0 <= i < |s| ==> t[i] == LowerHex(s[i])
    ensures LowerAll(s) == t
  {
    if s != "" {
      LowerAllIs(s[1..], t[1..]);
      assert t == [t[0]] + t[1..];
    }
  }

  lemma LowerIs()
    ensures LowerAll("D34DB33F") == "d34db33f"
  {
    LowerAllIs("D34DB33F", "d34db33f");
  }

  lemma {:induction false} HardenAllIs(s: string, t: string)
    requires |s| == |t| && forall i :: 0 <= i < |s| ==> t[i] == if s[i] == '\'' then 'h' else s[i]
    ensures HardenAll(s) == t
  {
    if s != "" {
      HardenAllIs(s[1..], t[1..]);
      assert t == [t[0]] + t[1..];
    }
  }

  lemma HardenIs()
    ensures HardenAll("/48'/0h") == "/48h/0h"
  {
    HardenAllIs("/48'/0h", "/48h/0h");
  }
}
