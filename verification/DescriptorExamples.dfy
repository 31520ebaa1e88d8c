// Descriptor texts for which the reader of main/descriptor_text.c does not keep what one would expect of it: they
// show that the conditions stated in DescriptorText and DescriptorTemplateLaws are needed.
module DescriptorExamples {
  import opened Options
  import opened DescriptorKeys
  import opened DescriptorTokens
  import opened DescriptorTemplate
  import opened DescriptorTemplateLaws
  import opened DescriptorText
  import J = JsonFinder
  import C = DescriptorChecksum
  import N = DescriptorNotations
  import opened DescriptorCollision

  // ---------------------------------------------------------------- a key and its walk

  const ORIGIN := "[d34db33f]"
  const BRANCHES := "/<0;1>/*"

  // A key expression in canonical form.
  function Sample(body: string): string {
    ORIGIN + (body + BRANCHES)
  }

  // Letters only, or anything else that neither ends a key nor opens a group.
  predicate Body(body: string) {
    1 <= |body| <= 20 && forall i :: 0 <= i < |body| ==> body[i] != '/' && !IsStop(body[i]) && Turn(body[i]) == 0
  }

  // A character copied as it is.
  predicate Kept(c: char, at: nat) {
    at == 0 || (if at <= 8 then IsHex(c) && Lower(c) == c else PathChar(c))
  }

  lemma {:induction false} CopiesItself(s: string, at: nat)
    requires at + |s| < 20 && forall i :: 0 <= i < |s| ==> Kept(s[i], at + i)
    ensures CopyOrigin(s, at, at, VALUE_SIZE) == Ok(s)
    decreases |s|
  {
    if s != [] {
      assert Kept(s[0], at);
      forall i | 0 <= i < |s[1..]| ensures Kept(s[1..][i], at + 1 + i) {
        assert s[1..][i] == s[i + 1] && Kept(s[i + 1], at + (i + 1));
      }
      CopiesItself(s[1..], at + 1);
      assert [s[0]] + s[1..] == s;
    }
  }

  lemma OriginCopies()
    ensures CopyOrigin(ORIGIN, 0, 0, VALUE_SIZE) == Ok(ORIGIN)
  {
    hide CopyOrigin;
    forall i | 0 <= i < |ORIGIN| ensures Kept(ORIGIN[i], 0 + i) {
    }
    CopiesItself(ORIGIN, 0);
  }

  lemma BranchesCanonical()
    ensures Child(BRANCHES) == Some(BRANCHES)
  {
    ChildFits(0, 1);
    ChildReads(0, 1);
    assert Dec(0) == "0" && Dec(1) == "1";
    assert ChildText(0, 1) == BRANCHES;
  }

  lemma SampleKey(body: string)
    requires Body(body)
    ensures Sample(body) != [] && CanonicalKey(Sample(body), VALUE_SIZE) == Ok((ORIGIN + body, BRANCHES))
  {
    hide CopyOrigin, Child;
    OriginCopies();
    BranchesCanonical();
    var tok, tail := Sample(body), body + BRANCHES;
    FirstCloseIs(tok, 9);
    assert tok[..10] == ORIGIN && tok[10..] == tail;
    FirstSlashIs(tail, |body|);
    assert tail[|body|..] == BRANCHES && tail[..|body|] == body;
  }

  lemma {:induction false} BodyQuiet(body: string)
    requires forall i :: 0 <= i < |body| ==> !IsStop(body[i]) && Turn(body[i]) == 0
    ensures Net(body) == 0
  {
    if body != [] {
      BodyQuiet(body[1..]);
    }
  }

  lemma SampleEnds(body: string, after: string)
    requires Body(body) && (after == [] || IsStop(after[0]))
    ensures TokenEnd(Sample(body) + after, 0) == |Sample(body)|
  {
    hide TokenEnd, RunsThrough, Net;
    BranchesCanonical();
    ChildBalanced(BRANCHES);
    NoStopsRun(Sample(body), 0);
    BodyQuiet(body);
    OriginNet();
    NetConcat(body, BRANCHES);
    NetConcat(ORIGIN, body + BRANCHES);
    EndsThere(Sample(body), after, 0);
  }

  lemma OriginNet()
    ensures Net(ORIGIN) == 0
  {
    hide Net;
    NetBrackets();
    FingerprintNet();
    NetConcat("[", "d34db33f" + "]");
    NetConcat("d34db33f", "]");
    assert ORIGIN == "[" + ("d34db33f" + "]");
  }

  lemma NetBrackets()
    ensures Net("[") + Net("]") == 0
  {
  }

  lemma FingerprintNet()
    ensures Net("d34db33f") == 0
  {
    hide Net;
    var body := "d34db33f";
    forall i | 0 <= i < |body| ensures !IsStop(body[i]) && Turn(body[i]) == 0 {
      assert body[i] == 'd' || body[i] == '3' || body[i] == '4' || body[i] == 'b' || body[i] == 'f';
    }
    BodyQuiet(body);
  }

  // A key in front of a separator or the end is walked over in one turn.
  lemma KeyWalked(body: string, after: string, prev: char, t: Template)
    requires Body(body) && (after == [] || IsStop(after[0])) && BeforeKey(prev) && '\0' !in body
    requires t.values == [] && |t.script| < 100
    ensures Walk(Sample(body) + after, prev, t) ==
            Walk(after, prev, Template([ORIGIN + body], t.script + ("@0" + BRANCHES)))
  {
    hide CanonicalKey, TokenEnd;
    var s := Sample(body) + after;
    SampleKey(body);
    SampleEnds(body, after);
    assert s[..|Sample(body)|] == Sample(body) && s[|Sample(body)|..] == after;
    assert s[0] == '[';
    assert Dec(0) == "0" && "@" + ("0" + BRANCHES) == "@0" + BRANCHES;
    assert CStr(ORIGIN + body) == ORIGIN + body;
    assert [] + [ORIGIN + body] == [ORIGIN + body];
  }

  // No key starts among these characters.
  predicate Plainly(prev: char, s: string) {
    (prev == '(' ==> s == [] || (s[0] != '[' && s[0] != 'x' && s[0] != 't')) && prev != ','
    && forall i :: 0 <= i < |s| ==>
         && s[i] != ','
         && (i + 1 < |s| && s[i] == '(' ==> s[i + 1] != '[' && s[i + 1] != 'x' && s[i + 1] != 't')
  }

  lemma {:induction false} PlainWalked(s: string, rest: string, prev: char, t: Template)
    requires Plainly(prev, s) && |t.script| + |s| < 200
    ensures Walk(s + rest, prev, t) ==
            Walk(rest, if s == [] then prev else s[|s| - 1], Template(t.values, t.script + s))
    decreases |s|
  {
    if s == [] {
      assert s + rest == rest && t.script + s == t.script;
    } else {
      hide CanonicalKey, TokenEnd;
      var all := s + rest;
      assert all[0] == s[0] && all[1..] == s[1..] + rest;
      StartsNoKey(all, prev);
      assert t.script + [s[0]] + s[1..] == t.script + s;
      PlainWalked(s[1..], rest, s[0], Template(t.values, t.script + [s[0]]));
    }
  }

  lemma StartsNoKey(s: string, prev: char)
    requires s != [] && prev != ',' && (prev == '(' ==> s[0] != '[' && s[0] != 'x' && s[0] != 't')
    ensures !(BeforeKey(prev) && IsKeyStart(s))
  {
    assert "xpub"[0] == 'x' && "tpub"[0] == 't';
  }

  // Plain text, a key, plain text.
  lemma SampleWalked(before: string, body: string, after: string)
    requires Body(body) && '\0' !in body && Plainly('(', before) && |before| < 50
    requires before != [] && before[|before| - 1] == '(' && Plainly('(', after) && |after| < 50
    requires after == [] || IsStop(after[0])
    ensures Walk(before + (Sample(body) + after), '(', NOTHING) ==
            Ok(Template([ORIGIN + body], before + ("@0" + (BRANCHES + after))))
  {
    hide Walk, Sample, Plainly, Body, ORIGIN, BRANCHES;
    PlainWalked(before, Sample(body) + after, '(', NOTHING);
    assert [] + before == before;
    KeyThenPlain(body, after, Template([], before));
  }

  lemma KeyThenPlain(body: string, after: string, t: Template)
    requires Body(body) && '\0' !in body && Plainly('(', after) && |after| < 50 && t.values == [] && |t.script| < 50
    requires after == [] || IsStop(after[0])
    ensures Walk(Sample(body) + after, '(', t) == Ok(Template([ORIGIN + body], t.script + ("@0" + (BRANCHES + after))))
  {
    assert |BRANCHES| == 8;
    hide Walk, Sample, Plainly, Body, ORIGIN, BRANCHES;
    KeyWalked(body, after, '(', t);
    PlainToEnd(after, '(', Template([ORIGIN + body], t.script + ("@0" + BRANCHES)));
    Regroup(t.script, "@0", BRANCHES, after);
  }

  lemma Regroup(a: string, b: string, c: string, d: string)
    ensures a + (b + c) + d == a + (b + (c + d))
  {
  }

  lemma PlainToEnd(s: string, prev: char, t: Template)
    requires Plainly(prev, s) && |t.script| + |s| < 200
    ensures Walk(s, prev, t) == Ok(Template(t.values, t.script + s))
  {
    hide Plainly, Walk;
    assert s + [] == s;
    PlainWalked(s, [], prev, t);
    WalkDone(if s == [] then prev else s[|s| - 1], Template(t.values, t.script + s));
  }

  lemma WalkDone(prev: char, t: Template)
    ensures Walk([], prev, t) == Ok(t)
  {
  }

  // A key without an origin is refused, not taken for plain text.
  lemma BareKeyRefused(before: string, rest: string)
    requires Plainly('(', before) && |before| < 200 && (before == "" || before[|before| - 1] == '(')
    requires |rest| >= 4 && (rest[..4] == "xpub" || rest[..4] == "tpub")
    ensures Walk(before + rest, '(', NOTHING) == Err(Unsupported)
  {
    hide Plainly, CanonicalKey, TokenEnd;
    PlainWalked(before, rest, '(', NOTHING);
    TokenNotEmpty(rest);
    var n := TokenEnd(rest, 0);
    assert rest[0] == rest[..4][0] && rest[..n][0] == rest[0];
    N.OriginRequired(rest[..n]);
    assert [] + before == before;
  }

  // ---------------------------------------------------------------- through the reader

  predicate NoSpace(s: string) {
    forall i :: 0 <= i < |s| ==> !J.IsSpace(s[i])
  }

  lemma {:induction false} StripPlain(s: string)
    requires NoSpace(s)
    ensures Strip(s) == s
  {
    if s != [] {
      StripPlain(s[1..]);
      assert [s[0]] + s[1..] == s;
    }
  }

  // A text with one key in it, and its template.
  function Text(before: string, body: string, after: string): string {
    before + (Sample(body) + after)
  }

  function Filled(before: string, body: string, after: string): Template {
    Template([ORIGIN + body], before + ("@0" + (BRANCHES + after)))
  }

  lemma TextRead(before: string, body: string, after: string)
    requires Body(body) && '\0' !in body && Plainly('(', before) && |before| < 50
    requires before != [] && before[|before| - 1] == '(' && Plainly('(', after) && |after| < 50
    requires after == [] || IsStop(after[0])
    requires NoSpace(Text(before, body, after))
    ensures Walked(Text(before, body, after)) == Ok(Filled(before, body, after))
  {
    hide Walk, Plainly, Body, ORIGIN, BRANCHES, NoSpace, Strip;
    SampleWalked(before, body, after);
    StripPlain(Text(before, body, after));
  }

  // Every text in the alphabet has a checksum.
  lemma Sealable(text: string) returns (checksum: string)
    requires C.Spelled(text)
    ensures |checksum| == 8 && C.Valid(text, checksum)
  {
    hide C.Computed, C.Symbol, C.Spelled;
    C.CharsetSizes();
    var chk := C.Computed(text);
    checksum := seq(8, i requires 0 <= i < 8 => C.CHECKSUM_CHARSET[C.Symbol(chk, i) as nat]);
  }

  lemma ShortIs()
    ensures SHORT == Text("sh(", "h0bWssC0", ")") && SHORT[0] == 's'
  {
    assert SHORT == Text("sh(", "h0bWssC0", ")");
  }

  lemma ShortRead()
    ensures SHORT == Text("sh(", "h0bWssC0", ")") && NoSpace(SHORT) && SHORT[0] == 's'
    ensures Walked(SHORT) == Ok(Filled("sh(", "h0bWssC0", ")"))
  {
    ShortSpaceless();
    hide Walked, SHORT, NoSpace, Filled;
    ShortIs();
    TextRead("sh(", "h0bWssC0", ")");
  }

  lemma ShortSpaceless()
    ensures NoSpace(SHORT) && NoSpace(LONG)
  {
  }

  lemma LongIs()
    ensures LONG == Text("wsh(", "h0bWssC0", ")")
  {
    assert LONG == Text("wsh(", "h0bWssC0", ")");
  }

  lemma LongRead()
    ensures Walked(LONG) == Ok(Filled("wsh(", "h0bWssC0", ")"))
  {
    ShortSpaceless();
    hide Walked, LONG, NoSpace, Filled;
    LongIs();
    TextRead("wsh(", "h0bWssC0", ")");
  }

  lemma LongStart()
    ensures |LONG| > 0 && |SHORT| > 0 && LONG[0] == 'w' && LONG[1..] == SHORT && '#' !in LONG && '#' !in SHORT
  {
  }

  // A checksummed wsh() descriptor whose first character becomes a blank is accepted, as the sh() descriptor that
  // has the same checksum.
  lemma BlankAccepted() returns (checksum: string)
    ensures |checksum| == 8 && C.Valid(LONG, checksum)
    ensures Parse(Sealed(LONG, checksum)) == Ok(Filled("wsh(", "h0bWssC0", ")"))
    ensures Parse(Sealed(LONG, checksum)[0 := ' ']) == Ok(Filled("sh(", "h0bWssC0", ")"))
  {
    hide C.Computed, C.Spelled, C.INPUT_CHARSET, Walked, Parse, NoSpace, C.Matches, LONG, SHORT;
    SameChecksum();
    ShortRead();
    LongRead();
    LongStart();
    checksum := Sealable(LONG);
    BlankSpelled();
    assert J.SkipWs(SHORT) == SHORT && J.IsSpace(' ') && !J.IsSpace('w');
    SubstitutionRefused(LONG, checksum, 0, ' ');
  }

  lemma BlankSpelled()
    ensures ' ' in C.INPUT_CHARSET && '{' in C.INPUT_CHARSET && 'q' in C.INPUT_CHARSET
  {
    assert |C.INPUT_CHARSET| == 95;
    assert C.INPUT_CHARSET[94] == ' ' && C.INPUT_CHARSET[30] == '{' && C.INPUT_CHARSET[72] == 'q';
  }

  // A checksummed descriptor whose '#' becomes a letter is accepted, the checksum now part of the template.
  lemma HashAccepted() returns (checksum: string)
    ensures |checksum| == 8 && C.Valid(SHORT, checksum)
    ensures Parse(Sealed(SHORT, checksum)) == Ok(Filled("sh(", "h0bWssC0", ")"))
    ensures Parse(Sealed(SHORT, checksum)[|SHORT| := 'q']) == Ok(Filled("sh(", "h0bWssC0", ")q" + checksum))
  {
    hide C.Computed, C.Spelled, C.INPUT_CHARSET, Walked, Parse, C.Matches, Dead, LONG, SHORT;
    SameChecksum();
    ShortRead();
    LongRead();
    LongStart();
    checksum := Sealable(SHORT);
    BlankSpelled();
    assert !J.IsSpace('s');
    SubstitutionRefused(SHORT, checksum, |SHORT|, 'q');
    ValidQuiet(SHORT, checksum);
    var tail := ")q" + checksum;
    QuietTail(checksum);
    assert Sealed(SHORT, checksum)[|SHORT| := 'q'] == Text("sh(", "h0bWssC0", tail);
    TextRead("sh(", "h0bWssC0", tail);
  }

  lemma QuietTail(checksum: string)
    requires Quiet(checksum)
    ensures NoSpace(")q" + checksum) && Plainly('(', ")q" + checksum)
  {
  }

  // ---------------------------------------------------------------- a descriptor that looks like a JSON export

  const MEMBER := "\"descriptor\":\""

  // A string without quotes or escapes, up to the closing quote.
  predicate Simple(s: string) {
    forall i :: 0 <= i < |s| ==> s[i] != '"' && s[i] != '\\'
  }

  lemma {:induction false} SimpleSkipped(s: string, rest: string)
    requires Simple(s)
    ensures J.SkipString(s + ("\"" + rest)) == Some(rest)
  {
    var all := s + ("\"" + rest);
    if s == [] {
      assert all == "\"" + rest && all[1..] == rest;
    } else {
      assert all[0] == s[0] && all[1..] == s[1..] + ("\"" + rest);
      SimpleSkipped(s[1..], rest);
    }
  }

  lemma {:induction false} SimpleRead(s: string, room: nat)
    requires Simple(s) && room > |s|
    ensures J.ReadString(s + "\"", room) == Some(s)
    decreases |s|
  {
    var all := s + "\"";
    if s != [] {
      assert all[0] == s[0] && all[1..] == s[1..] + "\"";
      SimpleRead(s[1..], room - 1);
      assert [s[0]] + s[1..] == s;
    }
  }

  lemma MemberFound(value: string)
    ensures J.FirstMember(MEMBER + (value + "\"")) == Some(("descriptor", "\"" + (value + "\"")))
  {
    var s, name := MEMBER + (value + "\""), "descriptor";
    var after := ":\"" + (value + "\"");
    assert Simple(name);
    assert s[0] == '"' && s[1..] == name + ("\"" + after);
    SimpleSkipped(name, after);
    assert after[0] == ':' && after[1..] == "\"" + (value + "\"");
    assert s[1..|s| - |after| - 1] == name;
  }

  // The text of an export with nothing but a descriptor in it; the closing brace is not looked for.
  lemma ExportRead(value: string)
    requires Simple(value)
    ensures Parse("{" + (MEMBER + (value + "\""))) == Read(value)
  {
    hide J.FirstMember, Read;
    var s := MEMBER + (value + "\"");
    var text := "{" + s;
    assert text[0] == '{' && text[1..] == s && J.SkipWs(text) == text;
    MemberFound(value);
    assert J.SameName("descriptor", "descriptor");
    var found := "\"" + (value + "\"");
    assert J.FindMember(s, "descriptor") == Some(found);
    assert found[0] == '"' && found[1..] == value + "\"";
    SimpleRead(value, |text| + 1);
  }

  const DISGUISED := "m" + (MEMBER + (SHORT + "\""))

  lemma MoreLetters()
    ensures |C.INPUT_CHARSET| == 95
    ensures C.INPUT_CHARSET[68] == 'm' && C.INPUT_CHARSET[92] == '"' && C.INPUT_CHARSET[22] == 'e'
    ensures C.INPUT_CHARSET[20] == 'c' && C.INPUT_CHARSET[73] == 'r' && C.INPUT_CHARSET[64] == 'i'
    ensures C.INPUT_CHARSET[71] == 'p' && C.INPUT_CHARSET[75] == 't' && C.INPUT_CHARSET[70] == 'o'
    ensures C.INPUT_CHARSET[27] == ':'
  {
  }

  lemma DisguisedSpelled()
    requires C.Spelled(SHORT)
    ensures C.Spelled(DISGUISED)
  {
    MoreLetters();
    AllKnown();
    hide C.INPUT_CHARSET, SHORT;
    var front := "m\"descriptor\":\"";
    assert DISGUISED == front + (SHORT + "\"");
    forall i | 0 <= i < |front| ensures front[i] in C.INPUT_CHARSET {
    }
  }

  lemma DisguisedRead()
    requires SHORT == Text("sh(", "h0bWssC0", ")") && NoSpace(SHORT)
    ensures DISGUISED == Text("m" + (MEMBER + "sh("), "h0bWssC0", ")\"")
    ensures Walked(DISGUISED) == Ok(Filled("m" + (MEMBER + "sh("), "h0bWssC0", ")\""))
  {
    hide SHORT, Walked;
    assert DISGUISED == Text("m" + (MEMBER + "sh("), "h0bWssC0", ")\"");
    assert NoSpace("m" + (MEMBER + "")) && NoSpace("\"");
    TextRead("m" + (MEMBER + "sh("), "h0bWssC0", ")\"");
  }

  // A checksummed text whose first character becomes a brace is accepted as the export it then looks like.
  lemma BraceAccepted() returns (checksum: string)
    ensures |checksum| == 8 && C.Valid(DISGUISED, checksum)
    ensures Parse(Sealed(DISGUISED, checksum)) == Ok(Filled("m" + (MEMBER + "sh("), "h0bWssC0", ")\""))
    ensures Parse(Sealed(DISGUISED, checksum)[0 := '{']) == Ok(Filled("sh(", "h0bWssC0", ")"))
  {
    hide C.Computed, C.Spelled, C.INPUT_CHARSET, Walked, Parse, C.Matches, SHORT, Checked;
    SameChecksum();
    ShortRead();
    LongStart();
    DisguisedSpelled();
    DisguisedRead();
    checksum := Sealable(DISGUISED);
    BlankSpelled();
    assert DISGUISED[0] == 'm' && DISGUISED[1..] == MEMBER + (SHORT + "\"") && !J.IsSpace('m');
    assert '#' !in MEMBER;
    SubstitutionRefused(DISGUISED, checksum, 0, '{');
    ShortSimple();
    ExportRead(SHORT);
    CheckedPlain(SHORT);
  }

  lemma ShortSimple()
    ensures Simple(SHORT) && SHORT[|SHORT| - 1] == ')'
  {
  }

  // Text that carries no checksum.
  lemma CheckedPlain(text: string)
    requires '#' !in text && text != [] && !J.IsSpace(text[|text| - 1])
    ensures Read(text) == Walked(text)
  {
    TrimmedAlready(text);
    FirstHashIs(text, |text|);
  }

  // ---------------------------------------------------------------- a key with a NUL in it

  const NUL_KEY := Sample("\0")

  lemma OnePiece(s: string, value: string, child: string)
    requires s != [] && IsKeyStart(s) && TokenEnd(s, 0) == |s| && CanonicalKey(s, VALUE_SIZE) == Ok((value, child))
    ensures Pieces(s, '(') == Ok([Key(value, child)])
  {
    hide CanonicalKey, TokenEnd, IsKeyStart;
    assert s[..|s|] == s && s[|s|..] == [];
    assert [Key(value, child)] + [] == [Key(value, child)];
  }

  lemma OneFilled(value: string, child: string)
    requires |child| < 100
    ensures Fill([Key(value, child)], NOTHING) == Ok(Template([CStr(value)], "@0" + child))
  {
    var p, v := Key(value, child), CStr(value);
    assert [p][1..] == [] && "@" + (Dec(0) + child) == "@0" + child;
    assert [] + [v] == [v] && [] + ("@0" + child) == "@0" + child;
  }

  lemma NulPieces()
    ensures Pieces(NUL_KEY, '(') == Ok([Key(ORIGIN + "\0", BRANCHES)])
  {
    hide CanonicalKey, TokenEnd;
    assert NUL_KEY + [] == NUL_KEY && NUL_KEY[0] == '[';
    SampleKey("\0");
    SampleEnds("\0", []);
    OnePiece(NUL_KEY, ORIGIN + "\0", BRANCHES);
  }

  // A text without '@' that the reader accepts and whose template and values do not give it back: the value ends at
  // the NUL.
  lemma NulKeyLost()
    ensures '@' !in NUL_KEY && Parse(NUL_KEY) == Ok(Template([ORIGIN], "@0" + BRANCHES))
    ensures Pieces(NUL_KEY, '(').Ok? && Subst("@0" + BRANCHES, [ORIGIN]) != Canonical(Pieces(NUL_KEY, '(').value)
  {
    NulPieces();
    NulPlain();
    NulEnds();
    hide Walk, Pieces, Subst, Fill, Canonical, NUL_KEY, ORIGIN, BRANCHES, NoSpace, Read;
    WalkIsFill(NUL_KEY, '(', NOTHING);
    OneFilled(ORIGIN + "\0", BRANCHES);
    ExpansionIsText(NUL_KEY);
    assert [Key(ORIGIN + "\0", BRANCHES)][0].Key? && (ORIGIN + "\0")[|ORIGIN|] == '\0';
    StripPlain(NUL_KEY);
    CheckedPlain(NUL_KEY);
    assert J.SkipWs(NUL_KEY) == NUL_KEY;
  }

  lemma NulPlain()
    ensures '@' !in NUL_KEY && '#' !in NUL_KEY && NoSpace(NUL_KEY) && |BRANCHES| < 100
    ensures NUL_KEY != [] && NUL_KEY[0] == '['
  {
  }

  lemma NulEnds()
    ensures CStr(ORIGIN + "\0") == ORIGIN
  {
    CStrStops(ORIGIN, []);
    assert ORIGIN + "\0" == ORIGIN + ("\0" + []);
  }

  lemma {:induction false} CStrStops(s: string, rest: string)
    requires '\0' !in s
    ensures CStr(s + ("\0" + rest)) == s
  {
    if s != [] {
      assert (s + ("\0" + rest))[1..] == s[1..] + ("\0" + rest);
      CStrStops(s[1..], rest);
      assert [s[0]] + s[1..] == s;
    }
  }
}
