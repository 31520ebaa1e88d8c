// The template walk of descriptor_text_parse(), main/descriptor_text.c: key expressions become '@<index>' with a
// canonical child path, and nothing is lost by it.
module DescriptorTemplate {
  import opened DescriptorKeys
  import opened DescriptorTokens

  const MAX_SIGNERS := 15
  const SCRIPT_SIZE := 512

  // What the walk fills in: the values are C strings.
  datatype Template = Template(values: seq<string>, script: string)

  const NOTHING := Template([], [])

  // A string as strcmp() and strcpy() see it.
  function CStr(s: string): (r: string)
    ensures |r| <= |s| && (|r| == |s| <==> '\0' !in s) && ('\0' !in s ==> r == s)
  {
    if s == [] || s[0] == '\0' then [] else [s[0]] + CStr(s[1..])
  }

  // The index of an identical value, or the number of values.
  function IndexOf(values: seq<string>, v: string): (n: nat)
    ensures n <= |values| && (n < |values| ==> values[n] == v) && forall i :: 0 <= i < n ==> values[i] != v
  {
    if values == [] || values[0] == v then 0 else 1 + IndexOf(values[1..], v)
  }

  function AddKey(t: Template, value: string, child: string): Result<Template> {
    var v := CStr(value);
    var index := IndexOf(t.values, v);
    if index == |t.values| && index >= MAX_SIGNERS then Err(TooMany)
    else
      var values := if index == |t.values| then t.values + [v] else t.values;
      var text := "@" + (Dec(index) + child);
      if |text| >= SCRIPT_SIZE - |t.script| then Err(TooLarge) else Ok(Template(values, t.script + text))
  }

  function AddChar(t: Template, c: char): Result<Template> {
    if |t.script| + 1 >= SCRIPT_SIZE then Err(TooLarge) else Ok(Template(t.values, t.script + [c]))
  }

  predicate BeforeKey(prev: char) {
    prev == '(' || prev == ','
  }

  lemma TokenNotEmpty(s: string)
    requires IsKeyStart(s)
    ensures TokenEnd(s, 0) > 0
  {
    assert "xpub"[0] == 'x' && "tpub"[0] == 't';
  }

  // The walk from some point of the text on.
  function Walk(s: string, prev: char, t: Template): Result<Template>
    decreases |s|
  {
    if s == [] then Ok(t)
    else if BeforeKey(prev) && IsKeyStart(s) then
      TokenNotEmpty(s);
      var n := TokenEnd(s, 0);
      var key := CanonicalKey(s[..n], VALUE_SIZE);
      if key.Err? then Err(key.error)
      else
        var t' := AddKey(t, key.value.0, key.value.1);
        if t'.Err? then t' else Walk(s[n..], prev, t'.value)
    else
      var t' := AddChar(t, s[0]);
      if t'.Err? then t' else Walk(s[1..], s[0], t'.value)
  }

  method WalkText(work: string) returns (r: Result<Template>)
    ensures r == Walk(work, '(', NOTHING)
  {
    hide CanonicalKey, TokenEnd, AddKey, IsKeyStart;
    var values: seq<string>, script: string, p: nat, prev := [], [], 0, '(';
    assert work[0..] == work;
    while p < |work|
      invariant p <= |work|
      invariant Walk(work[p..], prev, Template(values, script)) == Walk(work, '(', NOTHING)
      decreases |work| - p
    {
      ghost var s := work[p..];
      if BeforeKey(prev) && IsKeyStart(work[p..]) {
        TokenNotEmpty(s);
        var tend := TokenEndAt(work, p);
        assert s[..tend - p] == work[p..tend] && s[tend - p..] == work[tend..];
        var key := CanonicalKeyAt(work[p..tend], VALUE_SIZE);
        if key.Err? {
          return Err(key.error);
        }
        var t := PutKey(values, script, key.value.0, key.value.1);
        if t.Err? {
          return t;
        }
        values, script := t.value.values, t.value.script;
        p := tend;
        continue;
      }
      if |script| + 1 >= SCRIPT_SIZE {
        return Err(TooLarge);
      }
      assert s[1..] == work[p + 1..];
      prev := work[p];
      script := script + [work[p]];
      p := p + 1;
    }
    return Ok(Template(values, script));
  }

  // Reuse the index of an identical value, or take the next one.
  method PutKey(values: seq<string>, script: string, value: string, child: string) returns (r: Result<Template>)
    ensures r == AddKey(Template(values, script), value, child)
  {
    var v := CStr(value);
    var index := |values|;
    for i := 0 to |values|
      invariant index == |values| && forall k :: 0 <= k < i ==> values[k] != v
    {
      if values[i] == v {
        index := i;
        break;
      }
    }
    IndexIs(values, v, index);
    var values' := values;
    if index == |values| {
      if index >= MAX_SIGNERS {
        return Err(TooMany);
      }
      values' := values + [v];
    }
    var text := "@" + (Dec(index) + child);
    if |text| >= SCRIPT_SIZE - |script| {
      return Err(TooLarge);
    }
    return Ok(Template(values', script + text));
  }

  lemma {:induction false} IndexIs(values: seq<string>, v: string, n: nat)
    requires n <= |values| && (n < |values| ==> values[n] == v) && forall i :: 0 <= i < n ==> values[i] != v
    ensures IndexOf(values, v) == n
  {
  }

  // ---------------------------------------------------------------- pieces

  // The walked text as the walk reads it: plain characters and keys in canonical form.
  datatype Piece = Plain(c: char) | Key(value: string, child: string)

  function Pieces(s: string, prev: char): Result<seq<Piece>>
    decreases |s|
  {
    if s == [] then Ok([])
    else if BeforeKey(prev) && IsKeyStart(s) then
      TokenNotEmpty(s);
      var n := TokenEnd(s, 0);
      var key := CanonicalKey(s[..n], VALUE_SIZE);
      if key.Err? then Err(key.error)
      else
        var rest := Pieces(s[n..], prev);
        if rest.Err? then rest else Ok([Key(key.value.0, key.value.1)] + rest.value)
    else
      var rest := Pieces(s[1..], s[0]);
      if rest.Err? then rest else Ok([Plain(s[0])] + rest.value)
  }

  function Fill(ps: seq<Piece>, t: Template): Result<Template>
    decreases |ps|
  {
    if ps == [] then Ok(t)
    else
      var t' := if ps[0].Plain? then AddChar(t, ps[0].c) else AddKey(t, ps[0].value, ps[0].child);
      if t'.Err? then t' else Fill(ps[1..], t'.value)
  }

  // The text with every key in canonical form.
  function Canonical(ps: seq<Piece>): string {
    if ps == [] then []
    else (if ps[0].Plain? then [ps[0].c] else ps[0].value + ps[0].child) + Canonical(ps[1..])
  }

  // The walk is the pieces, filled in.
  lemma {:induction false} WalkIsFill(s: string, prev: char, t: Template)
    ensures Walk(s, prev, t).Ok? ==> Pieces(s, prev).Ok?
    ensures Pieces(s, prev).Ok? ==> Walk(s, prev, t) == Fill(Pieces(s, prev).value, t)
    decreases |s|
  {
    if s != [] {
      hide CanonicalKey, TokenEnd, IsKeyStart, AddKey, AddChar;
      if BeforeKey(prev) && IsKeyStart(s) {
        TokenNotEmpty(s);
        var n := TokenEnd(s, 0);
        var key := CanonicalKey(s[..n], VALUE_SIZE);
        if key.Ok? {
          var t' := AddKey(t, key.value.0, key.value.1);
          WalkIsFill(s[n..], prev, if t'.Ok? then t'.value else t);
          FillFirst(Key(key.value.0, key.value.1), s[n..], prev, t);
        }
      } else {
        var t' := AddChar(t, s[0]);
        WalkIsFill(s[1..], s[0], if t'.Ok? then t'.value else t);
        FillFirst(Plain(s[0]), s[1..], s[0], t);
      }
    }
  }

  lemma FillFirst(p: Piece, rest: string, prev: char, t: Template)
    ensures Pieces(rest, prev).Ok? ==>
              Fill([p] + Pieces(rest, prev).value, t) ==
              var t' := if p.Plain? then AddChar(t, p.c) else AddKey(t, p.value, p.child);
              if t'.Err? then t' else Fill(Pieces(rest, prev).value, t'.value)
  {
    hide Pieces, AddChar, AddKey;
    if Pieces(rest, prev).Ok? {
      assert ([p] + Pieces(rest, prev).value)[1..] == Pieces(rest, prev).value;
    }
  }
}
