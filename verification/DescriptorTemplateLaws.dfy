// What the template of main/descriptor_text.c means: putting the values back gives the text again, with every key in
// canonical form, and walking that text gives the template again.
module DescriptorTemplateLaws {
  import opened DescriptorKeys
  import opened DescriptorTokens
  import opened DescriptorTemplate

  // ---------------------------------------------------------------- substituting values

  // '@' and a number stand for a value.
  function Subst(s: string, values: seq<string>): string
    decreases |s|
  {
    if s == [] then []
    else if s[0] != '@' then [s[0]] + Subst(s[1..], values)
    else
      var (n, rest) := ReadNumber(s[1..], 0, MAX_DIGITS);
      (if n < |values| then values[n] else []) + Subst(rest, values)
  }

  ghost predicate Distinct(values: seq<string>) {
    forall i, j :: 0 <= i < j < |values| ==> values[i] != values[j]
  }

  // A child path the walk can produce, and a key that is its own canonical form.
  ghost predicate PieceOk(p: Piece) {
    p.Key? ==>
      && p.child != [] && p.child[0] == '/' && (forall i :: 0 <= i < |p.child| ==> p.child[i] != '@')
      && p.value != [] && p.value[0] == '[' && CanonicalKey(p.value + p.child, VALUE_SIZE) == Ok((p.value, p.child))
  }

  ghost predicate PiecesOk(ps: seq<Piece>) {
    forall i :: 0 <= i < |ps| ==> PieceOk(ps[i])
  }

  lemma ChildTextPlain(a: nat, b: nat)
    ensures forall i :: 0 <= i < |ChildText(a, b)| ==> ChildText(a, b)[i] != '@'
  {
    hide Dec;
    var s := ChildText(a, b);
    var t := Dec(b) + ">/*";
    assert forall i :: 0 <= i < |t| ==> t[i] != '@';
    var u := Dec(a) + (";" + t);
    assert forall i :: 0 <= i < |u| ==> u[i] != '@';
    assert s == "/<" + u;
  }

  lemma KeyPieceOk(tok: string)
    requires tok != [] && CanonicalKey(tok, VALUE_SIZE).Ok?
    ensures PieceOk(Key(CanonicalKey(tok, VALUE_SIZE).value.0, CanonicalKey(tok, VALUE_SIZE).value.1))
  {
    hide CanonicalKey, Child, ChildText, KeyParts;
    KeyStable(tok, VALUE_SIZE);
    KeyHasParts(tok, VALUE_SIZE);
    var (value, child) := CanonicalKey(tok, VALUE_SIZE).value;
    var close: nat, len: nat :| KeyParts(tok, value, child, close, len, VALUE_SIZE);
    PartsSplit(tok, value, child, close, len, VALUE_SIZE);
    var rest := tok[close + 1 + len..];
    ChildStart(rest);
    var a, b := ChildBranches(rest);
    ChildTextPlain(a, b);
  }

  lemma {:induction false} WalkedPiecesOk(s: string, prev: char)
    requires Pieces(s, prev).Ok?
    ensures PiecesOk(Pieces(s, prev).value)
    ensures forall i :: 0 <= i < |Pieces(s, prev).value| && Pieces(s, prev).value[i].Plain? ==>
              Pieces(s, prev).value[i].c in s
    decreases |s|
  {
    if s != [] {
      hide CanonicalKey, TokenEnd, IsKeyStart, PieceOk;
      if BeforeKey(prev) && IsKeyStart(s) {
        TokenNotEmpty(s);
        var n := TokenEnd(s, 0);
        KeyPieceOk(s[..n]);
        WalkedPiecesOk(s[n..], prev);
      } else {
        WalkedPiecesOk(s[1..], s[0]);
        PlainOk(s[0]);
      }
    }
  }

  lemma PlainOk(c: char)
    ensures PieceOk(Plain(c))
  {
  }

  // ---------------------------------------------------------------- the template as a whole

  function ScriptOf(ps: seq<Piece>, values: seq<string>): string {
    if ps == [] then []
    else
      (if ps[0].Plain? then [ps[0].c] else "@" + (Dec(IndexOf(values, CStr(ps[0].value))) + ps[0].child))
      + ScriptOf(ps[1..], values)
  }

  ghost predicate AllHeld(ps: seq<Piece>, values: seq<string>) {
    forall i :: 0 <= i < |ps| && ps[i].Key? ==> IndexOf(values, CStr(ps[i].value)) < |values|
  }

  lemma {:induction false} IndexInPrefix(a: seq<string>, b: seq<string>, v: string)
    requires |a| <= |b| && a == b[..|a|] && IndexOf(a, v) < |a|
    ensures IndexOf(b, v) == IndexOf(a, v)
  {
    var n := IndexOf(a, v);
    assert forall i :: 0 <= i < |a| ==> a[i] == b[i];
    IndexIs(b, v, n);
  }

  lemma AddKeyFacts(t: Template, value: string, child: string)
    requires AddKey(t, value, child).Ok? && Distinct(t.values) && |t.values| <= MAX_SIGNERS
    ensures var r, v := AddKey(t, value, child).value, CStr(value);
            && Distinct(r.values) && |r.values| <= MAX_SIGNERS && |t.values| <= |r.values| <= |t.values| + 1
            && t.values == r.values[..|t.values|] && IndexOf(r.values, v) < |r.values|
            && r.script == t.script + ("@" + (Dec(IndexOf(r.values, v)) + child))
            && (|r.values| > |t.values| ==> r.values[|t.values|] == v && IndexOf(t.values, v) == |t.values|)
  {
    hide Dec;
    var v := CStr(value);
    var n := IndexOf(t.values, v);
    var r := AddKey(t, value, child).value;
    IndexIs(r.values, v, n);
  }

  lemma FillHead(ps: seq<Piece>, t: Template) returns (t': Template)
    requires ps != [] && Fill(ps, t).Ok?
    ensures ps[0].Plain? ==> t' == Template(t.values, t.script + [ps[0].c])
    ensures ps[0].Key? ==> AddKey(t, ps[0].value, ps[0].child) == Ok(t')
    ensures Fill(ps[1..], t') == Fill(ps, t)
  {
    hide AddKey;
    t' := if ps[0].Plain? then AddChar(t, ps[0].c).value else AddKey(t, ps[0].value, ps[0].child).value;
  }

  lemma ScriptHead(ps: seq<Piece>, values: seq<string>, before: string, piece: string)
    requires ps != []
    requires piece == if ps[0].Plain? then [ps[0].c] else "@" + (Dec(IndexOf(values, CStr(ps[0].value))) + ps[0].child)
    ensures before + ScriptOf(ps, values) == before + piece + ScriptOf(ps[1..], values)
  {
    hide Dec, IndexOf, CStr;
  }

  lemma HeldHead(ps: seq<Piece>, values: seq<string>)
    requires ps != [] && AllHeld(ps[1..], values) && (ps[0].Key? ==> IndexOf(values, CStr(ps[0].value)) < |values|)
    ensures AllHeld(ps, values)
  {
    hide IndexOf, CStr;
    forall i | 0 <= i < |ps| && ps[i].Key? ensures IndexOf(values, CStr(ps[i].value)) < |values| {
      if i > 0 {
        assert ps[1..][i - 1] == ps[i];
      }
    }
  }

  lemma NothingToFill(t: Template)
    ensures Fill([], t) == Ok(t) && t.script + ScriptOf([], t.values) == t.script && AllHeld([], t.values)
  {
  }

  // The filled template: its values extend the given ones and stay distinct, its script is the pieces over them.
  lemma {:induction false} FillShape(ps: seq<Piece>, t: Template)
    requires Fill(ps, t).Ok? && Distinct(t.values) && |t.values| <= MAX_SIGNERS
    ensures var r := Fill(ps, t).value;
            && Distinct(r.values) && |t.values| <= |r.values| <= MAX_SIGNERS && t.values == r.values[..|t.values|]
            && r.script == t.script + ScriptOf(ps, r.values) && AllHeld(ps, r.values)
    decreases |ps|
  {
    hide Fill, AddKey, IndexOf, Dec, CStr, ScriptOf, AllHeld, Distinct;
    if ps == [] {
      NothingToFill(t);
    } else {
      var p, r := ps[0], Fill(ps, t).value;
      var t' := FillHead(ps, t);
      if p.Plain? {
        FillShape(ps[1..], t');
        ScriptHead(ps, r.values, t.script, [p.c]);
      } else {
        AddKeyFacts(t, p.value, p.child);
        FillShape(ps[1..], t');
        IndexInPrefix(t'.values, r.values, CStr(p.value));
        ScriptHead(ps, r.values, t.script, "@" + (Dec(IndexOf(r.values, CStr(p.value))) + p.child));
        assert t.values == r.values[..|t'.values|][..|t.values|];
      }
      HeldHead(ps, r.values);
    }
  }

  // ---------------------------------------------------------------- values put back

  // The canonical text with every value cut at its first NUL.
  function Cut(ps: seq<Piece>): string {
    if ps == [] then []
    else (if ps[0].Plain? then [ps[0].c] else CStr(ps[0].value) + ps[0].child) + Cut(ps[1..])
  }

  lemma {:induction false} SubstPlain(s: string, rest: string, values: seq<string>)
    requires forall i :: 0 <= i < |s| ==> s[i] != '@'
    ensures Subst(s + rest, values) == s + Subst(rest, values)
  {
    if s == [] {
      assert s + rest == rest;
    } else {
      SubstPlain(s[1..], rest, values);
      assert (s + rest)[0] == s[0] && (s + rest)[1..] == s[1..] + rest;
    }
  }

  lemma SubstAt(s: string, n: nat, rest: string, values: seq<string>)
    requires s != [] && s[0] == '@' && ReadNumber(s[1..], 0, MAX_DIGITS) == (n, rest) && n < |values|
    ensures Subst(s, values) == values[n] + Subst(rest, values)
  {
    hide ReadNumber;
  }

  lemma ShortIndex(n: nat)
    requires n < MAX_SIGNERS
    ensures |Dec(n)| <= MAX_DIGITS
  {
    assert PowTen(2) == 100;
    DecLength(n, 2);
  }

  lemma SubstKey(n: nat, child: string, rest: string, values: seq<string>)
    requires n < |values| <= MAX_SIGNERS && child != [] && child[0] == '/'
    requires forall i :: 0 <= i < |child| ==> child[i] != '@'
    ensures Subst("@" + (Dec(n) + child) + rest, values) == values[n] + (child + Subst(rest, values))
  {
    hide Dec, Subst, ReadNumber;
    var s := "@" + (Dec(n) + child) + rest;
    ShortIndex(n);
    assert s[1..] == Dec(n) + (child + rest);
    DecReads(n, child + rest, MAX_DIGITS);
    SubstAt(s, n, child + rest, values);
    SubstPlain(child, rest, values);
  }

  ghost predicate NoAt(ps: seq<Piece>) {
    forall i :: 0 <= i < |ps| && ps[i].Plain? ==> ps[i].c != '@'
  }

  lemma {:induction false} SubstIsCut(ps: seq<Piece>, values: seq<string>)
    requires PiecesOk(ps) && NoAt(ps) && AllHeld(ps, values) && |values| <= MAX_SIGNERS
    ensures Subst(ScriptOf(ps, values), values) == Cut(ps)
  {
    if ps != [] {
      var p, rest := ps[0], ps[1..];
      assert forall i :: 0 <= i < |rest| ==> rest[i] == ps[i + 1];
      SubstIsCut(rest, values);
      assert PieceOk(p);
      if p.Plain? {
        SubstPlain([p.c], ScriptOf(rest, values), values);
      } else {
        hide Subst, CanonicalKey, Dec, IndexOf;
        SubstKey(IndexOf(values, CStr(p.value)), p.child, ScriptOf(rest, values), values);
        assert values[IndexOf(values, CStr(p.value))] == CStr(p.value) by {
          IndexHolds(values, CStr(p.value));
        }
      }
    }
  }

  lemma IndexHolds(values: seq<string>, v: string)
    requires IndexOf(values, v) < |values|
    ensures values[IndexOf(values, v)] == v
  {
  }

  // No key holds a NUL.
  ghost predicate NoNul(ps: seq<Piece>) {
    forall i :: 0 <= i < |ps| && ps[i].Key? ==> '\0' !in ps[i].value
  }

  lemma {:induction false} CutLength(ps: seq<Piece>)
    ensures |Cut(ps)| <= |Canonical(ps)|
    ensures NoNul(ps) ==> Cut(ps) == Canonical(ps)
    ensures !NoNul(ps) ==> |Cut(ps)| < |Canonical(ps)|
  {
    if ps != [] {
      var rest := ps[1..];
      CutLength(rest);
      assert forall i :: 0 <= i < |rest| ==> rest[i] == ps[i + 1];
      if !NoNul(ps) && NoNul(rest) {
        assert ps[0].Key? && '\0' in ps[0].value;
      }
    }
  }

  // For accepted text without '@': substituting the values in the script gives the text back with every key in
  // canonical form, exactly when no key holds a NUL.
  lemma ExpansionIsText(work: string)
    requires Walk(work, '(', NOTHING).Ok? && '@' !in work
    ensures Pieces(work, '(').Ok?
    ensures var r, ps := Walk(work, '(', NOTHING).value, Pieces(work, '(').value;
            Subst(r.script, r.values) == Canonical(ps) <==> NoNul(ps)
  {
    hide Pieces, Fill, Subst, ScriptOf, Canonical, Cut, AddKey, PiecesOk, AllHeld;
    WalkIsFill(work, '(', NOTHING);
    var r, ps := Walk(work, '(', NOTHING).value, Pieces(work, '(').value;
    WalkedPiecesOk(work, '(');
    FillShape(ps, NOTHING);
    assert [] + ScriptOf(ps, r.values) == ScriptOf(ps, r.values);
    SubstIsCut(ps, r.values);
    CutLength(ps);
  }

  // ---------------------------------------------------------------- walking the expansion

  // A plain character that cannot stand before a key is followed by a plain character, or by nothing.
  lemma NextIsPlain(s: string, prev: char)
    requires Pieces(s, prev).Ok? && !BeforeKey(prev)
    ensures s == [] ==> Canonical(Pieces(s, prev).value) == []
    ensures s != [] ==>
              && Pieces(s[1..], s[0]).Ok? && Pieces(s, prev).value == [Plain(s[0])] + Pieces(s[1..], s[0]).value
              && Canonical(Pieces(s, prev).value) == [s[0]] + Canonical(Pieces(s[1..], s[0]).value)
  {
    hide CanonicalKey, TokenEnd, IsKeyStart;
    if s != [] {
      var rest := Pieces(s[1..], s[0]).value;
      assert ([Plain(s[0])] + rest)[1..] == rest;
    }
  }

  // Three characters that cannot stand before a key fix the next three.
  lemma SameFour(s: string)
    requires s != [] && Pieces(s[1..], s[0]).Ok?
    requires var c := [s[0]] + Canonical(Pieces(s[1..], s[0]).value);
             |c| >= 4 && !BeforeKey(c[0]) && !BeforeKey(c[1]) && !BeforeKey(c[2])
    ensures |s| >= 4 && ([s[0]] + Canonical(Pieces(s[1..], s[0]).value))[..4] == s[..4]
  {
    hide Pieces, Canonical;
    Follow(s[1..], s[0]);
    assert s[1..][1..] == s[2..] && s[1..][0] == s[1];
    Follow(s[2..], s[1]);
    assert s[2..][1..] == s[3..] && s[2..][0] == s[2];
    Follow(s[3..], s[2]);
  }

  // Where no key starts in the text, none starts in its canonical form.
  lemma StillNoKey(s: string)
    requires s != [] && Pieces(s[1..], s[0]).Ok? && !IsKeyStart(s)
    ensures !IsKeyStart([s[0]] + Canonical(Pieces(s[1..], s[0]).value))
  {
    hide Pieces, Canonical;
    var c := [s[0]] + Canonical(Pieces(s[1..], s[0]).value);
    if IsKeyStart(c) {
      LettersOfKey(c);
      SameFour(s);
    }
  }

  lemma LettersOfKey(c: string)
    requires IsKeyStart(c) && c[0] != '['
    ensures |c| >= 4 && !BeforeKey(c[0]) && !BeforeKey(c[1]) && !BeforeKey(c[2])
  {
    assert c[..4][0] == c[0] && c[..4][1] == c[1] && c[..4][2] == c[2];
  }

  lemma Follow(s: string, prev: char)
    requires Pieces(s, prev).Ok? && !BeforeKey(prev) && Canonical(Pieces(s, prev).value) != []
    ensures s != [] && Pieces(s[1..], s[0]).Ok?
    ensures Canonical(Pieces(s, prev).value) == [s[0]] + Canonical(Pieces(s[1..], s[0]).value)
  {
    hide Pieces, Canonical;
    NextIsPlain(s, prev);
  }

  // After a key comes a separator, which stays, or the end.
  lemma AfterKey(after: string, prev: char)
    requires Pieces(after, prev).Ok? && (after != [] ==> IsStop(after[0]))
    ensures var c := Canonical(Pieces(after, prev).value);
            (after == [] <==> c == []) && (after != [] ==> c[0] == after[0])
  {
    hide CanonicalKey, TokenEnd;
    if after != [] {
      assert !IsKeyStart(after) by {
        assert "xpub"[0] == 'x' && "tpub"[0] == 't';
      }
    }
  }

  // The canonical text reads as the same pieces.
  lemma {:induction false} CanonicalReads(s: string, prev: char)
    requires Pieces(s, prev).Ok?
    ensures Pieces(Canonical(Pieces(s, prev).value), prev) == Pieces(s, prev)
    decreases |s|
  {
    if s != [] {
      if BeforeKey(prev) && IsKeyStart(s) {
        KeyReads(s, prev);
        var n := TokenEnd(s, 0);
        TokenNotEmpty(s);
        CanonicalReads(s[n..], prev);
      } else {
        if !IsKeyStart(s) {
          StillNoKey(s);
        }
        PlainReads(s, prev);
        CanonicalReads(s[1..], s[0]);
      }
    }
  }

  lemma PlainReads(s: string, prev: char)
    requires s != [] && Pieces(s, prev).Ok? && !(BeforeKey(prev) && IsKeyStart(s))
    requires Pieces(s[1..], s[0]).Ok? ==>
               !(BeforeKey(prev) && IsKeyStart([s[0]] + Canonical(Pieces(s[1..], s[0]).value)))
    ensures Pieces(s[1..], s[0]).Ok?
    ensures var rest := Pieces(s[1..], s[0]).value;
            && Canonical(Pieces(s, prev).value) == [s[0]] + Canonical(rest)
            && (Pieces(Canonical(rest), s[0]) == Ok(rest) ==> Pieces([s[0]] + Canonical(rest), prev) == Pieces(s, prev))
  {
    hide CanonicalKey, TokenEnd, IsKeyStart;
    var rest := Pieces(s[1..], s[0]).value;
    assert ([Plain(s[0])] + rest)[1..] == rest;
    assert ([s[0]] + Canonical(rest))[1..] == Canonical(rest);
  }

  lemma KeyReads(s: string, prev: char)
    requires s != [] && Pieces(s, prev).Ok? && BeforeKey(prev) && IsKeyStart(s)
    ensures var n := TokenEnd(s, 0);
            && Pieces(s[n..], prev).Ok?
            && (Pieces(Canonical(Pieces(s[n..], prev).value), prev) == Pieces(s[n..], prev)
                ==> Pieces(Canonical(Pieces(s, prev).value), prev) == Pieces(s, prev))
  {
    TokenNotEmpty(s);
    var n := TokenEnd(s, 0);
    var tok, after := s[..n], s[n..];
    assert s == tok + after;
    var rest := Pieces(after, prev).value;
    var (value, child) := CanonicalKey(tok, VALUE_SIZE).value;
    PiecesKey(s, prev, value, child);
    KeyEndsAgain(tok, after, prev);
    KeyStable(tok, VALUE_SIZE);
    var key := value + child;
    var text := key + Canonical(rest);
    CanonicalFirst(value, child, rest);
    assert text[..|key|] == key && text[|key|..] == Canonical(rest);
    hide Canonical, TokenEnd, CanonicalKey;
    assert text[0] == '[' && IsKeyStart(text);
    if Pieces(Canonical(rest), prev) == Ok(rest) {
      PiecesFromKey(text, prev, value, child, |key|, rest);
    }
  }

  lemma PiecesKey(s: string, prev: char, value: string, child: string)
    requires s != [] && Pieces(s, prev).Ok? && BeforeKey(prev) && IsKeyStart(s)
    requires TokenEnd(s, 0) > 0 && (CanonicalKey(s[..TokenEnd(s, 0)], VALUE_SIZE).Ok? ==>
               (value, child) == CanonicalKey(s[..TokenEnd(s, 0)], VALUE_SIZE).value)
    ensures var n := TokenEnd(s, 0);
            && CanonicalKey(s[..n], VALUE_SIZE).Ok? && Pieces(s[n..], prev).Ok?
            && Pieces(s, prev) == Ok([Key(value, child)] + Pieces(s[n..], prev).value)
  {
    hide CanonicalKey, TokenEnd, IsKeyStart;
  }

  lemma PiecesFromKey(s: string, prev: char, value: string, child: string, n: nat, rest: seq<Piece>)
    requires s != [] && BeforeKey(prev) && IsKeyStart(s) && TokenEnd(s, 0) == n > 0 && n <= |s|
    requires CanonicalKey(s[..n], VALUE_SIZE) == Ok((value, child)) && Pieces(s[n..], prev) == Ok(rest)
    ensures Pieces(s, prev) == Ok([Key(value, child)] + rest)
  {
    hide CanonicalKey, TokenEnd, IsKeyStart;
  }

  lemma CanonicalFirst(value: string, child: string, rest: seq<Piece>)
    ensures Canonical([Key(value, child)] + rest) == value + child + Canonical(rest)
  {
    assert ([Key(value, child)] + rest)[1..] == rest;
  }

  lemma KeyEndsAgain(tok: string, after: string, prev: char)
    requires tok != [] && CanonicalKey(tok, VALUE_SIZE).Ok? && TokenEnd(tok + after, 0) == |tok|
    requires Pieces(after, prev).Ok?
    ensures var (value, child) := CanonicalKey(tok, VALUE_SIZE).value;
            TokenEnd(value + child + Canonical(Pieces(after, prev).value), 0) == |value + child|
  {
    hide CanonicalKey, TokenEnd, Pieces, Canonical, RunsThrough, Net;
    EndsThere(tok, after, 0);
    AfterKey(after, prev);
    var c := Canonical(Pieces(after, prev).value);
    EndsThere(tok, c, 0);
    KeyEndsThere(tok, c, VALUE_SIZE);
  }

  // Walking the expansion yields the same template and values.
  lemma ExpansionWalksBack(work: string)
    requires Walk(work, '(', NOTHING).Ok? && '@' !in work && Pieces(work, '(').Ok? && NoNul(Pieces(work, '(').value)
    ensures var r := Walk(work, '(', NOTHING).value;
            Walk(Subst(r.script, r.values), '(', NOTHING) == Ok(r)
  {
    hide Walk, Pieces, Fill, Subst, Canonical;
    ExpansionIsText(work);
    WalkIsFill(work, '(', NOTHING);
    CanonicalReads(work, '(');
    WalkIsFill(Canonical(Pieces(work, '(').value), '(', NOTHING);
  }

  // ---------------------------------------------------------------- numbering

  // Where a value first appears among the keys.
  function FirstAt(ps: seq<Piece>, v: string): (n: nat)
    ensures n <= |ps|
    ensures n < |ps| ==> ps[n].Key? && CStr(ps[n].value) == v
    ensures forall i :: 0 <= i < n && ps[i].Key? ==> CStr(ps[i].value) != v
  {
    if ps == [] || (ps[0].Key? && CStr(ps[0].value) == v) then 0 else 1 + FirstAt(ps[1..], v)
  }

  lemma {:induction false} NewInOrder(ps: seq<Piece>, t: Template)
    requires Fill(ps, t).Ok? && Distinct(t.values) && |t.values| <= MAX_SIGNERS
    ensures var v := Fill(ps, t).value.values;
            && (forall i :: |t.values| <= i < |v| ==> FirstAt(ps, v[i]) < |ps|)
            && (forall i, j :: |t.values| <= i < j < |v| ==> FirstAt(ps, v[i]) < FirstAt(ps, v[j]))
    decreases |ps|
  {
    hide Fill, AddKey, CStr, IndexOf, ScriptOf, AllHeld, Distinct, FirstAt;
    FillShape(ps, t);
    if ps == [] {
      NothingToFill(t);
    } else {
      var p, v := ps[0], Fill(ps, t).value.values;
      var t' := FillHead(ps, t);
      if p.Key? {
        AddKeyFacts(t, p.value, p.child);
      }
      FillShape(ps[1..], t');
      NewInOrder(ps[1..], t');
      forall i | |t.values| <= i < |v|
        ensures i < |t'.values| ==> FirstAt(ps, v[i]) == 0
        ensures i >= |t'.values| ==> FirstAt(ps, v[i]) == 1 + FirstAt(ps[1..], v[i])
      {
        FirstHead(ps, v[i]);
        if i >= |t'.values| && p.Key? {
          KnownValue(t'.values, v, CStr(p.value), i);
        }
      }
    }
  }

  lemma FirstHead(ps: seq<Piece>, v: string)
    requires ps != []
    ensures FirstAt(ps, v) == if ps[0].Key? && CStr(ps[0].value) == v then 0 else 1 + FirstAt(ps[1..], v)
  {
  }

  lemma KnownValue(held: seq<string>, all: seq<string>, v: string, i: nat)
    requires Distinct(all) && |held| <= i < |all| && held == all[..|held|] && IndexOf(held, v) < |held|
    ensures all[i] != v
  {
    var k := IndexOf(held, v);
    assert held[k] == v && all[k] == held[k];
  }

  // Values are pairwise distinct, numbered by first appearance, and every key has one.
  lemma NumberedByFirstAppearance(work: string)
    requires Walk(work, '(', NOTHING).Ok?
    ensures Pieces(work, '(').Ok?
    ensures var v, ps := Walk(work, '(', NOTHING).value.values, Pieces(work, '(').value;
            && Distinct(v) && |v| <= MAX_SIGNERS && AllHeld(ps, v)
            && (forall i :: 0 <= i < |v| ==> FirstAt(ps, v[i]) < |ps|)
            && (forall i, j :: 0 <= i < j < |v| ==> FirstAt(ps, v[i]) < FirstAt(ps, v[j]))
  {
    hide Walk, Pieces, Fill, FirstAt, ScriptOf, AllHeld;
    WalkIsFill(work, '(', NOTHING);
    FillShape(Pieces(work, '(').value, NOTHING);
    NewInOrder(Pieces(work, '(').value, NOTHING);
  }
}
