// Key tokens of descriptor text (main/descriptor_text.c): canonical_key(), token_end() and is_key_start(). A
// canonical key is its own canonical form and ends where the original ended.
module DescriptorTokens {
  import opened Options
  import opened DescriptorKeys

  const VALUE_SIZE := 160

  // ---------------------------------------------------------------- canonical keys

  // memchr(tok, ']', ...)
  function FirstClose(s: string): (n: nat)
    ensures n <= |s| && (n < |s| ==> s[n] == ']') && forall i :: 0 <= i < n ==> s[i] != ']'
  {
    if s == [] || s[0] == ']' then 0 else 1 + FirstClose(s[1..])
  }

  function FirstSlash(s: string): (n: nat)
    ensures n <= |s| && (n < |s| ==> s[n] == '/') && forall i :: 0 <= i < n ==> s[i] != '/'
  {
    if s == [] || s[0] == '/' then 0 else 1 + FirstSlash(s[1..])
  }

  predicate PathChar(c: char) {
    IsDigit(c) || c == '/' || c == 'h' || c == ']'
  }

  function Harden(c: char): char {
    if c == '\'' then 'h' else c
  }

  // The bracket and the fingerprint, then the path up to the closing bracket, copied onto `n` characters.
  function CopyOrigin(s: string, at: nat, n: nat, room: nat): (r: Result<string>)
    ensures r.Ok? ==> |r.value| == |s|
    decreases |s|
  {
    if s == [] then Ok([])
    else if at == 0 || at > 8 then
      if at > 8 && !PathChar(Harden(s[0])) then Err(Invalid)
      else Put(if at == 0 then s[0] else Harden(s[0]), s, at, n, room)
    else if !IsHex(s[0]) then Err(Invalid)
    else Put(Lower(s[0]), s, at, n, room)
  }

  function Put(c: char, s: string, at: nat, n: nat, room: nat): (r: Result<string>)
    requires s != []
    ensures r.Ok? ==> |r.value| == |s|
    decreases |s|, 0
  {
    if n + 1 >= room then Err(KeyTooLong)
    else
      var rest := CopyOrigin(s[1..], at + 1, n + 1, room);
      if rest.Err? then rest else Ok([c] + rest.value)
  }

  // value '[fp/path]body' and child path of a key expression
  function CanonicalKey(tok: string, room: nat): Result<(string, string)>
    requires tok != []
  {
    if tok[0] != '[' then Err(Unsupported)
    else
      var close := FirstClose(tok);
      if close == |tok| || close < 9 || (tok[9] != '/' && tok[9] != ']') then Err(Invalid)
      else
        var origin := CopyOrigin(tok[..close + 1], 0, 0, room);
        if origin.Err? then Err(origin.error)
        else
          var tail := tok[close + 1..];
          var len := FirstSlash(tail);
          if len == 0 then Err(Invalid)
          else if close + 1 + len + 1 > room then Err(KeyTooLong)
          else
            var child := Child(tail[len..]);
            if child.None? then Err(Unsupported) else Ok((origin.value + tail[..len], child.value))
  }

  function Prepend(pre: string, r: Result<string>): Result<string> {
    if r.Err? then r else Ok(pre + r.value)
  }

  lemma CopyStep(pre: string, s: string, at: nat, n: nat, room: nat)
    requires s != []
    ensures var c := if at == 0 then s[0] else if at > 8 then Harden(s[0]) else Lower(s[0]);
            Prepend(pre, CopyOrigin(s, at, n, room)) ==
            if at > 8 && !PathChar(c) then Err(Invalid)
            else if 1 <= at <= 8 && !IsHex(s[0]) then Err(Invalid)
            else if n + 1 >= room then Err(KeyTooLong)
            else Prepend(pre + [c], CopyOrigin(s[1..], at + 1, n + 1, room))
  {
    var c := if at == 0 then s[0] else if at > 8 then Harden(s[0]) else Lower(s[0]);
    var rest := CopyOrigin(s[1..], at + 1, n + 1, room);
    assert rest.Ok? ==> pre + ([c] + rest.value) == pre + [c] + rest.value;
  }

  // The two copying loops of canonical_key().
  method CopyOriginAt(tok: string, close: nat, room: nat) returns (r: Result<string>)
    requires 9 <= close < |tok| && tok[0] == '['
    ensures r == CopyOrigin(tok[..close + 1], 0, 0, room)
  {
    hide CopyOrigin, IsHex, PathChar;
    ghost var s := tok[..close + 1];
    var value: string := [];
    assert s[0..] == s;
    assert CopyOrigin(s, 0, 0, room).Ok? ==> [] + CopyOrigin(s, 0, 0, room).value == CopyOrigin(s, 0, 0, room).value;
    for i := 0 to 9
      invariant |value| == i
      invariant Prepend(value, CopyOrigin(s[i..], i, i, room)) == CopyOrigin(s, 0, 0, room)
    {
      CopyStep(value, s[i..], i, i, room);
      assert s[i..][1..] == s[i + 1..];
      var c := tok[i];
      if i > 0 && !IsHex(c) {
        return Err(Invalid);
      }
      if |value| + 1 >= room {
        return Err(KeyTooLong);
      }
      value := value + [if i == 0 then c else Lower(c)];
    }
    var p: nat := 9;
    while p <= close
      invariant 9 <= p <= close + 1 && |value| == p
      invariant Prepend(value, CopyOrigin(s[p..], p, p, room)) == CopyOrigin(s, 0, 0, room)
    {
      CopyStep(value, s[p..], p, p, room);
      assert s[p..][1..] == s[p + 1..];
      var c := tok[p];
      p := p + 1;
      if c == '\'' {
        c := 'h';
        assert PathChar('h') by {
          PathH();
        }
      } else if !PathChar(c) {
        return Err(Invalid);
      }
      if |value| + 1 >= room {
        return Err(KeyTooLong);
      }
      value := value + [c];
    }
    CopyNothing(p, room);
    assert s[p..] == [] && value + [] == value;
    r := Ok(value);
  }

  lemma PathH()
    ensures PathChar('h')
  {
  }

  lemma CopyNothing(at: nat, room: nat)
    ensures CopyOrigin([], at, at, room) == Ok([])
  {
  }

  method CanonicalKeyAt(tok: string, room: nat) returns (r: Result<(string, string)>)
    requires tok != []
    ensures r == CanonicalKey(tok, room)
  {
    hide CopyOrigin, Child;
    if tok[0] != '[' {
      return Err(Unsupported);
    }
    var close := FirstClose(tok);
    if close == |tok| || close < 9 || (tok[9] != '/' && tok[9] != ']') {
      return Err(Invalid);
    }
    var origin := CopyOriginAt(tok, close, room);
    if origin.Err? {
      return Err(origin.error);
    }
    var tail := tok[close + 1..];
    var len := FirstSlash(tail);
    if len == 0 {
      return Err(Invalid);
    }
    if |origin.value| + len + 1 > room {
      return Err(KeyTooLong);
    }
    var child := CanonicalChild(tail[len..]);
    if child.None? {
      return Err(Unsupported);
    }
    return Ok((origin.value + tail[..len], child.value));
  }

  // ---------------------------------------------------------------- a canonical key is stable

  // What copying keeps: brackets and slashes stay where they are, and a copy copies to itself.
  lemma {:induction false} CopyStable(s: string, at: nat, n: nat, room: nat)
    requires CopyOrigin(s, at, n, room).Ok? && (at == 0 && s != [] ==> s[0] == '[')
    ensures var o := CopyOrigin(s, at, n, room).value;
            && CopyOrigin(o, at, n, room) == Ok(o)
            && forall i :: 0 <= i < |s| ==>
                 && (o[i] == ']' <==> s[i] == ']') && (o[i] == '/' <==> s[i] == '/') && (o[i] == '[' <==> at + i == 0)
                 && (s[i] == '[' <==> at + i == 0) && Dull(o[i]) && Dull(s[i])
    decreases |s|
  {
    if s != [] {
      var o := CopyOrigin(s, at, n, room).value;
      CopyStable(s[1..], at + 1, n + 1, room);
      assert o == [o[0]] + CopyOrigin(s[1..], at + 1, n + 1, room).value;
      assert o[1..] == CopyOrigin(s[1..], at + 1, n + 1, room).value;
      forall i | 0 < i < |s|
        ensures (o[i] == ']' <==> s[i] == ']') && (o[i] == '/' <==> s[i] == '/') && o[i] != '[' && s[i] != '['
        ensures Dull(o[i]) && Dull(s[i])
      {
        assert o[i] == o[1..][i - 1] && s[i] == s[1..][i - 1];
      }
    }
  }

  // Neither a separator nor a bracket of another kind.
  predicate Dull(c: char) {
    c != ',' && c != ')' && c != '<' && c != '>' && c != '{' && c != '}'
  }

  // The parts of an accepted key.
  ghost predicate KeyParts(tok: string, value: string, child: string, close: nat, len: nat, room: nat) {
    && tok != [] && tok[0] == '[' && 9 <= close < |tok| && close == FirstClose(tok) && (tok[9] == '/' || tok[9] == ']')
    && CopyOrigin(tok[..close + 1], 0, 0, room).Ok?
    && 1 <= len == FirstSlash(tok[close + 1..]) && close + 1 + len + 1 <= room
    && Child(tok[close + 1 + len..]) == Some(child)
    && value == CopyOrigin(tok[..close + 1], 0, 0, room).value + tok[close + 1..close + 1 + len]
  }

  lemma KeyHasParts(tok: string, room: nat)
    requires tok != [] && CanonicalKey(tok, room).Ok?
    ensures var (value, child) := CanonicalKey(tok, room).value;
            exists close: nat, len: nat :: KeyParts(tok, value, child, close, len, room)
  {
    hide CopyOrigin, Child;
    var close := FirstClose(tok);
    var tail := tok[close + 1..];
    var len := FirstSlash(tail);
    assert tail[..len] == tok[close + 1..close + 1 + len] && tail[len..] == tok[close + 1 + len..];
    var (value, child) := CanonicalKey(tok, room).value;
    assert KeyParts(tok, value, child, close, len, room);
  }

  lemma {:induction false} FirstCloseIs(s: string, n: nat)
    requires n < |s| && s[n] == ']' && forall i :: 0 <= i < n ==> s[i] != ']'
    ensures FirstClose(s) == n
  {
  }

  lemma {:induction false} FirstSlashIs(s: string, n: nat)
    requires n < |s| && s[n] == '/' && forall i :: 0 <= i < n ==> s[i] != '/'
    ensures FirstSlash(s) == n
  {
  }

  // Canonicalising a canonical key changes nothing.
  lemma KeyStable(tok: string, room: nat)
    requires tok != [] && CanonicalKey(tok, room).Ok?
    ensures var (value, child) := CanonicalKey(tok, room).value;
            value != [] && value[0] == '[' && CanonicalKey(value + child, room) == Ok((value, child))
  {
    hide CanonicalKey;
    KeyHasParts(tok, room);
    var (value, child) := CanonicalKey(tok, room).value;
    var close: nat, len: nat :| KeyParts(tok, value, child, close, len, room);
    PartsStable(tok, value, child, close, len, room);
    KeyFromParts(value + child, value, child, close, len, room);
  }

  lemma PartsStable(tok: string, value: string, child: string, close: nat, len: nat, room: nat)
    requires KeyParts(tok, value, child, close, len, room)
    ensures KeyParts(value + child, value, child, close, len, room) && value[0] == '['
  {
    hide CopyOrigin, Child;
    var o, body := CopyOrigin(tok[..close + 1], 0, 0, room).value, tok[close + 1..close + 1 + len];
    var again := value + child;
    CopyStable(tok[..close + 1], 0, 0, room);
    ChildStable(tok[close + 1 + len..]);
    ChildStart(tok[close + 1 + len..]);
    assert again[..close + 1] == o;
    forall i | 0 <= i <= close ensures (again[i] == ']' <==> i == close) && (again[i] == '/' <==> tok[i] == '/') {
      assert again[i] == o[i] && tok[..close + 1][i] == tok[i];
    }
    FirstCloseIs(again, close);
    var tail := again[close + 1..];
    assert tail == body + child;
    forall i | 0 <= i < len ensures tail[i] != '/' {
      assert tail[i] == tok[close + 1..][i];
    }
    assert tail[len] == child[0];
    FirstSlashIs(tail, len);
    assert again[close + 1 + len..] == child;
    assert again[close + 1..close + 1 + len] == body;
  }

  lemma ChildStart(rest: string)
    requires Child(rest).Some?
    ensures Child(rest).value != [] && Child(rest).value[0] == '/' && rest != [] && rest[0] == '/'
  {
    hide ReadNumber;
  }

  lemma KeyFromParts(tok: string, value: string, child: string, close: nat, len: nat, room: nat)
    requires KeyParts(tok, value, child, close, len, room)
    ensures CanonicalKey(tok, room) == Ok((value, child))
  {
    hide CopyOrigin, Child;
    var tail := tok[close + 1..];
    assert tail[..len] == tok[close + 1..close + 1 + len] && tail[len..] == tok[close + 1 + len..];
  }

  // ---------------------------------------------------------------- where a key ends

  predicate OpensGroup(c: char) {
    c == '[' || c == '<' || c == '{'
  }

  predicate ClosesGroup(c: char) {
    c == ']' || c == '>' || c == '}'
  }

  function Turn(c: char): int {
    if OpensGroup(c) then 1 else if ClosesGroup(c) then -1 else 0
  }

  predicate IsStop(c: char) {
    c == ',' || c == ')'
  }

  // The first ',' or ')' outside groups, `group` of which are open.
  function TokenEnd(s: string, group: int): (n: nat)
    ensures n <= |s|
    decreases |s|
  {
    if s == [] || (group == 0 && IsStop(s[0])) then 0
    else 1 + TokenEnd(s[1..], group + Turn(s[0]))
  }

  method TokenEndAt(text: string, p0: nat) returns (p: nat)
    requires p0 <= |text|
    ensures p0 <= p <= |text| && p == p0 + TokenEnd(text[p0..], 0)
  {
    var group := 0;
    p := p0;
    while p < |text|
      invariant p0 <= p <= |text| && p + TokenEnd(text[p..], group) == p0 + TokenEnd(text[p0..], 0)
    {
      assert text[p..][1..] == text[p + 1..];
      if OpensGroup(text[p]) {
        group := group + 1;
      } else if ClosesGroup(text[p]) {
        group := group - 1;
      } else if group == 0 && (text[p] == ',' || text[p] == ')') {
        break;
      }
      p := p + 1;
    }
  }

  function Net(s: string): int {
    if s == [] then 0 else Turn(s[0]) + Net(s[1..])
  }

  // No end inside s.
  predicate RunsThrough(s: string, group: int)
    decreases |s|
  {
    s == [] || (!(group == 0 && IsStop(s[0])) && RunsThrough(s[1..], group + Turn(s[0])))
  }

  lemma {:induction false} NetConcat(a: string, b: string)
    ensures Net(a + b) == Net(a) + Net(b)
  {
    if a == [] {
      assert a + b == b;
    } else {
      assert (a + b)[0] == a[0] && (a + b)[1..] == a[1..] + b;
      NetConcat(a[1..], b);
    }
  }

  lemma {:induction false} ThroughConcat(a: string, b: string, group: int)
    ensures RunsThrough(a + b, group) <==> RunsThrough(a, group) && RunsThrough(b, group + Net(a))
    decreases |a|
  {
    if a == [] {
      assert a + b == b;
    } else {
      assert (a + b)[0] == a[0] && (a + b)[1..] == a[1..] + b;
      ThroughConcat(a[1..], b, group + Turn(a[0]));
    }
  }

  lemma {:induction false} NoStopsRun(s: string, group: int)
    requires forall i :: 0 <= i < |s| ==> !IsStop(s[i])
    ensures RunsThrough(s, group)
    decreases |s|
  {
    if s != [] {
      NoStopsRun(s[1..], group + Turn(s[0]));
    }
  }

  // A token ends exactly at its length when nothing ends it earlier and a stop, or the end of the text, follows.
  lemma {:induction false} EndsThere(s: string, after: string, group: int)
    ensures TokenEnd(s + after, group) == |s| <==>
            (RunsThrough(s, group) && (after == [] || (group + Net(s) == 0 && IsStop(after[0]))))
    decreases |s|
  {
    if s == [] {
      assert s + after == after;
    } else {
      assert (s + after)[0] == s[0] && (s + after)[1..] == s[1..] + after;
      EndsThere(s[1..], after, group + Turn(s[0]));
    }
  }

  lemma {:induction false} DigitsNeutral(s: string, acc: nat, left: nat)
    ensures Net(s) == Net(ReadNumber(s, acc, left).1)
    decreases |s|
  {
    if s != [] && IsDigit(s[0]) && left > 0 {
      DigitsNeutral(s[1..], acc * 10 + DigitValue(s[0]), left - 1);
    }
  }

  lemma {:induction false} PrintedDigitsQuiet(s: string)
    requires forall i :: 0 <= i < |s| ==> IsDigit(s[i])
    ensures Net(s) == 0 && forall i :: 0 <= i < |s| ==> !IsStop(s[i])
  {
    if s != [] {
      PrintedDigitsQuiet(s[1..]);
    }
  }

  // A child path closes the groups it opens; the canonical one holds no separator.
  lemma ChildBalanced(rest: string)
    requires Child(rest).Some?
    ensures Net(rest) == 0 && Net(Child(rest).value) == 0
    ensures forall i :: 0 <= i < |Child(rest).value| ==> !IsStop(Child(rest).value[i])
  {
    var a, b := ChildBranches(rest);
    ChildTextBalanced(a, b);
    if rest == "/**" {
      StarsBalanced();
    } else {
      PlainChildBalanced(rest);
    }
    hide Child, ChildText;
  }

  lemma StarsBalanced()
    ensures Net("/**") == 0 && Net("/*") == 0
  {
    assert "/**"[1..] == "**" && "**"[1..] == "*" && "*"[1..] == "";
    assert "/*"[1..] == "*";
  }

  lemma PlainChildBalanced(rest: string)
    requires Child(rest).Some? && rest != "/**"
    ensures Net(rest) == 0
  {
    hide ReadNumber, ChildText;
    var (a, s) := ReadNumber(rest[2..], 0, MAX_DIGITS);
    DigitsNeutral(rest[2..], 0, MAX_DIGITS);
    var (b, t) := ReadNumber(s[1..], 0, MAX_DIGITS);
    DigitsNeutral(s[1..], 0, MAX_DIGITS);
    StarsBalanced();
    assert Net(t) == Turn(t[0]) + Net(t[1..]);
    assert Net(s) == Turn(s[0]) + Net(s[1..]);
    assert rest[1..][1..] == rest[2..];
    assert Net(rest) == Turn(rest[0]) + (Turn(rest[1]) + Net(rest[2..]));
  }

  lemma ChildTextBalanced(a: nat, b: nat)
    ensures Net(ChildText(a, b)) == 0
    ensures forall i :: 0 <= i < |ChildText(a, b)| ==> !IsStop(ChildText(a, b)[i])
  {
    hide Dec;
    PrintedDigitsQuiet(Dec(a));
    PrintedDigitsQuiet(Dec(b));
    EdgesBalanced();
    NetConcat("/<", Dec(a) + (";" + (Dec(b) + ">/*")));
    NetConcat(Dec(a), ";" + (Dec(b) + ">/*"));
    NetConcat(";", Dec(b) + ">/*");
    NetConcat(Dec(b), ">/*");
  }

  lemma EdgesBalanced()
    ensures Net("/<") == 1 && Net(";") == 0 && Net(">/*") == -1
  {
    StarsBalanced();
    assert "/<"[1..] == "<" && "<"[1..] == "" && ";"[1..] == "" && ">/*"[1..] == "/*";
  }

  // '[' at the front, ']' at the end, no other bracket and no separator between.
  ghost predicate OriginShape(s: string) {
    && |s| >= 2 && s[0] == '[' && s[|s| - 1] == ']'
    && (forall i :: 0 < i < |s| - 1 ==> Turn(s[i]) == 0)
    && (forall i :: 0 <= i < |s| ==> !IsStop(s[i]))
  }

  lemma {:induction false} FlatNet(s: string)
    requires forall i :: 0 <= i < |s| ==> Turn(s[i]) == 0
    ensures Net(s) == 0
  {
    if s != [] {
      FlatNet(s[1..]);
    }
  }

  lemma OriginBalanced(s: string)
    requires OriginShape(s)
    ensures Net(s) == 0 && RunsThrough(s, 0)
  {
    var mid := s[1..|s| - 1];
    assert s == ['['] + (mid + [']']);
    NetConcat(['['], mid + [']']);
    NetConcat(mid, [']']);
    FlatNet(mid);
    NoStopsRun(s, 0);
    assert Net(['[']) == 1 && Net([']']) == -1;
  }

  lemma OriginsShaped(tok: string, value: string, child: string, close: nat, len: nat, room: nat)
    requires KeyParts(tok, value, child, close, len, room)
    ensures OriginShape(tok[..close + 1]) && OriginShape(value[..close + 1])
  {
    hide CopyOrigin, Child;
    var s := tok[..close + 1];
    CopyStable(s, 0, 0, room);
    var o := CopyOrigin(s, 0, 0, room).value;
    assert value[..close + 1] == o;
    assert s[close] == ']';
    forall i | 0 <= i <= close
      ensures !IsStop(s[i]) && !IsStop(o[i]) && (0 < i < close ==> (Turn(s[i]) == 0 && Turn(o[i]) == 0))
    {
      assert s[i] == tok[i];
    }
  }

  // In front of the same text, the canonical key ends where the original did.
  lemma KeyEndsThere(tok: string, after: string, room: nat)
    requires tok != [] && CanonicalKey(tok, room).Ok? && TokenEnd(tok + after, 0) == |tok|
    ensures var (value, child) := CanonicalKey(tok, room).value;
            TokenEnd(value + child + after, 0) == |value + child|
  {
    hide CanonicalKey, KeyParts, TokenEnd;
    KeyHasParts(tok, room);
    var (value, child) := CanonicalKey(tok, room).value;
    var close: nat, len: nat :| KeyParts(tok, value, child, close, len, room);
    EndsThere(tok, after, 0);
    EndsThere(value + child, after, 0);
    SameRun(tok, value, child, close, len, room);
  }

  lemma PartsSplit(tok: string, value: string, child: string, close: nat, len: nat, room: nat)
    requires KeyParts(tok, value, child, close, len, room)
    ensures close + 1 + len <= |tok| && close + 1 <= |value| && Child(tok[close + 1 + len..]) == Some(child)
    ensures tok == tok[..close + 1] + (tok[close + 1..close + 1 + len] + tok[close + 1 + len..])
    ensures value + child == value[..close + 1] + (tok[close + 1..close + 1 + len] + child)
  {
    hide CopyOrigin, Child;
  }

  lemma SameRun(tok: string, value: string, child: string, close: nat, len: nat, room: nat)
    requires KeyParts(tok, value, child, close, len, room) && RunsThrough(tok, 0)
    ensures RunsThrough(value + child, 0) && Net(value + child) == Net(tok)
  {
    hide RunsThrough, Net, KeyParts, IsStop, OriginShape;
    OriginsShaped(tok, value, child, close, len, room);
    PartsSplit(tok, value, child, close, len, room);
    var head, body, rest := tok[..close + 1], tok[close + 1..close + 1 + len], tok[close + 1 + len..];
    var origin := value[..close + 1];
    ChildBalanced(rest);
    hide Child;
    OriginBalanced(head);
    OriginBalanced(origin);
    NetConcat(head, body + rest);
    NetConcat(body, rest);
    NetConcat(origin, body + child);
    NetConcat(body, child);
    ThroughConcat(head, body + rest, 0);
    ThroughConcat(body, rest, 0);
    ThroughConcat(origin, body + child, 0);
    ThroughConcat(body, child, 0);
    NoStopsRun(child, Net(body));
  }

  // '[' or an extended public key
  predicate IsKeyStart(s: string) {
    s != [] && (s[0] == '[' || (|s| >= 4 && (s[..4] == "xpub" || s[..4] == "tpub")))
  }
}
