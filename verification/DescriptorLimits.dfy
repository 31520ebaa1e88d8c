// Exactly which descriptor texts main/descriptor_text.c has room for, and which it finds no key in.
module DescriptorLimits {
  import opened Options
  import opened DescriptorKeys
  import opened DescriptorTemplate
  import opened DescriptorTemplateLaws
  import opened DescriptorText
  import J = JsonFinder
  import C = DescriptorChecksum

  // The values of the keys, each where it first appears, behind those held.
  function Collected(ps: seq<Piece>, held: seq<string>): seq<string> {
    if ps == [] then held
    else if ps[0].Key? && IndexOf(held, CStr(ps[0].value)) == |held|
    then Collected(ps[1..], held + [CStr(ps[0].value)])
    else Collected(ps[1..], held)
  }

  lemma {:induction false} CollectedBehind(ps: seq<Piece>, held: seq<string>)
    ensures held <= Collected(ps, held)
  {
    if ps != [] {
      if ps[0].Key? && IndexOf(held, CStr(ps[0].value)) == |held| {
        CollectedBehind(ps[1..], held + [CStr(ps[0].value)]);
      } else {
        CollectedBehind(ps[1..], held);
      }
    }
  }

  // There is room exactly for fifteen different values and 511 characters of template.
  ghost predicate HasRoom(ps: seq<Piece>, t: Template) {
    var values := Collected(ps, t.values);
    |values| <= 15 && |t.script| + |ScriptOf(ps, values)| <= 511
  }

  lemma PlainFilled(ps: seq<Piece>, t: Template)
    requires ps != [] && ps[0].Plain?
    ensures Fill(ps, t) == if |t.script| + 1 <= 511 then Fill(ps[1..], Template(t.values, t.script + [ps[0].c]))
                           else Err(TooLarge)
    ensures Collected(ps, t.values) == Collected(ps[1..], t.values)
  {
  }

  lemma KeyFilled(ps: seq<Piece>, t: Template)
    requires ps != [] && ps[0].Key?
    ensures var v, n := CStr(ps[0].value), IndexOf(t.values, CStr(ps[0].value));
            var values := if n == |t.values| then t.values + [v] else t.values;
            var text := "@" + (Dec(n) + ps[0].child);
            && Collected(ps, t.values) == Collected(ps[1..], values)
            && Fill(ps, t) ==
               if n == |t.values| && |t.values| >= 15 then Err(TooMany)
               else if |t.script| + |text| > 511 then Err(TooLarge)
               else Fill(ps[1..], Template(values, t.script + text))
  {
    hide Dec;
  }

  lemma {:induction false} FillExactly(ps: seq<Piece>, t: Template)
    requires |t.values| <= 15 && |t.script| <= 511
    ensures Fill(ps, t).Ok? <==> HasRoom(ps, t)
    ensures Fill(ps, t).Ok? ==>
              var values := Collected(ps, t.values);
              Fill(ps, t).value == Template(values, t.script + ScriptOf(ps, values))
    decreases |ps|
  {
    hide Dec, Fill, Collected;
    CollectedNone(t.values);
    CollectedBehind(ps, t.values);
    var all := Collected(ps, t.values);
    if ps == [] {
      NothingToFill(t);
    } else if ps[0].Plain? {
      PlainFilled(ps, t);
      ScriptHead(ps, all, t.script, [ps[0].c]);
      ScriptHead(ps, all, "", [ps[0].c]);
      if |t.script| + 1 <= 511 {
        FillExactly(ps[1..], Template(t.values, t.script + [ps[0].c]));
      }
    } else {
      KeyFilled(ps, t);
      var v, n := CStr(ps[0].value), IndexOf(t.values, CStr(ps[0].value));
      var values := if n == |t.values| then t.values + [v] else t.values;
      var text := "@" + (Dec(n) + ps[0].child);
      CollectedBehind(ps[1..], values);
      NumberKept(values, all, v, n);
      ScriptHead(ps, all, t.script, text);
      ScriptHead(ps, all, "", text);
      if !(n == |t.values| && |t.values| >= 15) && |t.script| + |text| <= 511 {
        FillExactly(ps[1..], Template(values, t.script + text));
      }
    }
  }

  lemma CollectedNone(held: seq<string>)
    ensures Collected([], held) == held
  {
  }

  lemma NumberKept(values: seq<string>, all: seq<string>, v: string, n: nat)
    requires values <= all && n < |values| && values[n] == v && forall i :: 0 <= i < n ==> values[i] != v
    ensures IndexOf(all, v) == n
  {
    IndexIs(all, v, n);
  }

  // A text whose keys are all in order gets a template exactly if there is room for it, and then it is the one of these
  // values and pieces.
  lemma WalkExactly(work: string)
    requires Pieces(work, '(').Ok?
    ensures var ps := Pieces(work, '(').value;
            && (Walk(work, '(', NOTHING).Ok? <==> HasRoom(ps, NOTHING))
            && (Walk(work, '(', NOTHING).Ok? ==>
                  Walk(work, '(', NOTHING).value == Template(Collected(ps, []), ScriptOf(ps, Collected(ps, []))))
  {
    hide Walk, Pieces, Fill, Collected, ScriptOf;
    WalkIsFill(work, '(', NOTHING);
    FillExactly(Pieces(work, '(').value, NOTHING);
    assert "" + ScriptOf(Pieces(work, '(').value, Collected(Pieces(work, '(').value, [])) ==
           ScriptOf(Pieces(work, '(').value, Collected(Pieces(work, '(').value, []));
  }

  // ---------------------------------------------------------------- nothing to read

  // Without a key there is nothing to register.
  lemma KeylessRefused(checked: string)
    requires Strip(checked) != [] && Pieces(Strip(checked), '(').Ok?
    requires forall i :: 0 <= i < |Pieces(Strip(checked), '(').value| ==> Pieces(Strip(checked), '(').value[i].Plain?
    ensures Walked(checked).Err? && (Walked(checked).error == Unsupported || Walked(checked).error == TooLarge)
    ensures |Pieces(Strip(checked), '(').value| <= 511 ==> Walked(checked) == Err(Unsupported)
  {
    hide Walk, Pieces, Strip, ScriptOf, Fill, Collected;
    var work := Strip(checked);
    var ps := Pieces(work, '(').value;
    WalkIsFill(work, '(', NOTHING);
    PlainCollected(ps, NOTHING);
  }

  lemma {:induction false} PlainCollected(ps: seq<Piece>, t: Template)
    requires (forall i :: 0 <= i < |ps| ==> ps[i].Plain?) && |t.script| <= 511
    ensures Fill(ps, t).Ok? ==> Fill(ps, t).value.values == t.values
    ensures Fill(ps, t).Err? ==> Fill(ps, t).error == TooLarge
    ensures |t.script| + |ps| <= 511 ==> Fill(ps, t).Ok?
    decreases |ps|
  {
    hide Fill, Collected;
    if ps == [] {
      NothingToFill(t);
    } else {
      PlainFilled(ps, t);
      if |t.script| + 1 <= 511 {
        PlainCollected(ps[1..], Template(t.values, t.script + [ps[0].c]));
      }
    }
  }

  // Blanks only, and an export without a descriptor in it.
  lemma NothingToRead(text: string)
    ensures (forall i :: 0 <= i < |text| ==> J.IsSpace(text[i])) ==> Parse(text) == Err(Invalid)
    ensures (&& J.SkipWs(text) != [] && J.SkipWs(text)[0] == '{'
             && J.GetString(J.SkipWs(text), "descriptor", |text| + 1).None?) ==> Parse(text) == Err(Invalid)
  {
    hide J.GetString, Walk;
    if forall i :: 0 <= i < |text| ==> J.IsSpace(text[i]) {
      AllSkipped(text);
      NoText();
    }
  }

  lemma {:induction false} AllSkipped(text: string)
    requires forall i :: 0 <= i < |text| ==> J.IsSpace(text[i])
    ensures J.SkipWs(text) == []
  {
    if text != [] {
      AllSkipped(text[1..]);
    }
  }

  lemma NoText()
    ensures Read([]) == Err(Invalid)
  {
    assert Trim([]) == [] && FirstHash([]) == 0 && Strip([]) == [];
  }

  // ---------------------------------------------------------------- the stages in front of the walk

  // Stripping takes out the blanks, each where it stands, and nothing else.
  lemma {:induction false} StripIs(a: string, c: char, b: string)
    ensures Strip(a + ([c] + b)) == Strip(a) + ((if J.IsSpace(c) then "" else [c]) + Strip(b)) && Strip("") == ""
  {
    if a == [] {
      assert a + ([c] + b) == [c] + b && ([c] + b)[1..] == b;
    } else {
      assert (a + ([c] + b))[1..] == a[1..] + ([c] + b);
      StripIs(a[1..], c, b);
    }
  }

  // Trimming takes the blanks off the end, and nothing else.
  lemma {:induction false} TrimIs(text: string, blanks: string)
    requires (forall i :: 0 <= i < |blanks| ==> J.IsSpace(blanks[i]))
    requires text == "" || !J.IsSpace(text[|text| - 1])
    ensures Trim(text + blanks) == text
  {
    if blanks == [] {
      assert text + blanks == text;
    } else {
      var n := |blanks| - 1;
      assert (text + blanks)[..|text + blanks| - 1] == text + blanks[..n];
      TrimIs(text, blanks[..n]);
    }
  }

  // After the first '#' come eight characters or the text is refused.
  lemma ChecksumLength(text: string, tail: string)
    requires '#' !in text && |tail| != 8 && (tail == "" || !J.IsSpace(tail[|tail| - 1]))
    ensures Checked(text + ("#" + tail)) == Err(Invalid)
  {
    hide C.Valid;
    var w := text + ("#" + tail);
    assert w[|text|] == '#';
    HashNotSpace();
    TrimmedAlready(w);
    FirstHashIs(w, |text|);
  }
}
