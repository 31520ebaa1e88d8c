// The JSON member finder of main/descriptor_text.c over every well-formed object: any nesting, any whitespace,
// any escapes.
module JsonLaws {
  import opened Options
  import opened JsonFinder

  // JSON as written: strings with their escapes, scalars, and the whitespace kept where it stands.
  datatype Json =
    | Text(raw: string)
    | Scalar(text: string)
    | Array(lead: string, items: Items)
    | Object(lead: string, members: Members)
  datatype Items =
    | NoItems
    | Items(before: string, item: Json, after: string, rest: Items)
  datatype Members =
    | NoMembers
    | Members(before: string, name: string, mid: string, lead: string, value: Json, after: string, rest: Members)

  function Quoted(raw: string): string {
    ['"'] + (raw + ['"'])
  }

  function Render(v: Json): string {
    match v
    case Text(raw) => Quoted(raw)
    case Scalar(text) => text
    case Array(lead, items) => ['['] + ((if items.NoItems? then lead else RenderItems(items)) + [']'])
    case Object(lead, members) => ['{'] + ((if members.NoMembers? then lead else RenderMembers(members)) + ['}'])
  }

  function RenderItems(items: Items): string
    requires items.Items?
  {
    items.before + (Render(items.item) + (items.after +
      (if items.rest.NoItems? then [] else [','] + RenderItems(items.rest))))
  }

  function RenderMembers(ms: Members): string
    requires ms.Members?
  {
    ms.before + (Quoted(ms.name) + (ms.mid + ([':'] + (ms.lead + (Render(ms.value) + (ms.after +
      (if ms.rest.NoMembers? then [] else [','] + RenderMembers(ms.rest))))))))
  }

  ghost predicate Blank(s: string) {
    forall i :: 0 <= i < |s| ==> IsSpace(s[i])
  }

  // A closing quote is escaped, and so is nothing past the end.
  predicate WellEscaped(raw: string)
    decreases |raw|
  {
    if raw == [] then true
    else if raw[0] == '\\' then |raw| >= 2 && WellEscaped(raw[2..])
    else raw[0] != '"' && WellEscaped(raw[1..])
  }

  predicate Structural(c: char) {
    c == '"' || IsOpen(c) || IsClose(c)
  }

  ghost predicate Quiet(s: string) {
    forall i :: 0 <= i < |s| ==> !Structural(s[i])
  }

  ghost predicate ScalarOk(text: string) {
    && text != [] && Quiet(text)
    && forall i :: 0 <= i < |text| ==> text[i] != ',' && !IsSpace(text[i])
  }

  ghost predicate Well(v: Json) {
    match v
    case Text(raw) => WellEscaped(raw)
    case Scalar(text) => ScalarOk(text)
    case Array(lead, items) => Blank(lead) && WellItems(items)
    case Object(lead, members) => Blank(lead) && WellMembers(members)
  }

  ghost predicate WellItems(items: Items) {
    items.Items? ==> Blank(items.before) && Well(items.item) && Blank(items.after) && WellItems(items.rest)
  }

  ghost predicate WellMembers(ms: Members) {
    ms.Members? ==>
      && Blank(ms.before) && WellEscaped(ms.name) && Blank(ms.mid) && Blank(ms.lead)
      && Well(ms.value) && Blank(ms.after) && WellMembers(ms.rest)
  }

  // ---------------------------------------------------------------- skipping

  lemma {:induction false} StringSkipped(raw: string, rest: string)
    requires WellEscaped(raw)
    ensures SkipString(raw + (['"'] + rest)) == Some(rest)
    decreases |raw|
  {
    var s := raw + (['"'] + rest);
    if raw == [] {
      assert s == ['"'] + rest;
      assert s[1..] == rest;
    } else if raw[0] == '\\' {
      StringSkipped(raw[2..], rest);
      assert s[2..] == raw[2..] + (['"'] + rest);
    } else {
      StringSkipped(raw[1..], rest);
      assert s[1..] == raw[1..] + (['"'] + rest);
    }
  }

  lemma {:induction false} BlankSkipped(ws: string, rest: string)
    requires Blank(ws) && (rest != [] ==> !IsSpace(rest[0]))
    ensures SkipWs(ws + rest) == rest
  {
    if ws == [] {
      assert ws + rest == rest;
    } else {
      assert (ws + rest)[0] == ws[0] && (ws + rest)[1..] == ws[1..] + rest;
      BlankSkipped(ws[1..], rest);
    }
  }

  // Inside a container, text without quotes and brackets is passed over.
  lemma {:induction false} QuietPassed(s: string, rest: string, depth: nat)
    requires Quiet(s) && depth >= 1
    ensures SkipValue(s + rest, depth) == SkipValue(rest, depth)
  {
    if s == [] {
      assert s + rest == rest;
    } else {
      QuietPassed(s[1..], rest, depth);
      assert !Structural(s[0]);
      assert (s + rest)[0] == s[0] && (s + rest)[1..] == s[1..] + rest;
    }
  }

  lemma BlankQuiet(s: string)
    requires Blank(s)
    ensures Quiet(s)
  {
  }

  lemma BlankPassed(s: string, rest: string, depth: nat)
    requires Blank(s) && depth >= 1
    ensures SkipValue(s + rest, depth) == SkipValue(rest, depth)
  {
    BlankQuiet(s);
    QuietPassed(s, rest, depth);
  }

  lemma QuotedSkipped(raw: string, rest: string, depth: nat)
    requires WellEscaped(raw)
    ensures SkipValue(Quoted(raw) + rest, depth) == if depth == 0 then Some(rest) else SkipValue(rest, depth)
  {
    var s := Quoted(raw) + rest;
    StringSkipped(raw, rest);
    assert s[1..] == raw + (['"'] + rest);
  }

  lemma OnePassed(c: char, rest: string, depth: nat)
    ensures IsOpen(c) ==> SkipValue([c] + rest, depth) == SkipValue(rest, depth + 1)
    ensures IsClose(c) && depth >= 1 ==>
              SkipValue([c] + rest, depth) == if depth == 1 then Some(rest) else SkipValue(rest, depth - 1)
    ensures (c == ',' || c == ':') && depth >= 1 ==> SkipValue([c] + rest, depth) == SkipValue(rest, depth)
  {
    assert ([c] + rest)[1..] == rest;
  }

  // Inside a container a whole value is passed over.
  lemma {:induction false} ValuePassed(v: Json, rest: string, depth: nat)
    requires Well(v) && depth >= 1
    ensures SkipValue(Render(v) + rest, depth) == SkipValue(rest, depth)
    decreases v
  {
    hide SkipValue, WellEscaped;
    match v
    case Text(raw) => QuotedSkipped(raw, rest, depth);
    case Scalar(text) => QuietPassed(text, rest, depth);
    case Array(lead, items) => ContainerPassed(v, rest, depth);
    case Object(lead, members) => ContainerPassed(v, rest, depth);
  }

  function Inner(v: Json): string
    requires v.Array? || v.Object?
  {
    if v.Array? then if v.items.NoItems? then v.lead else RenderItems(v.items)
    else if v.members.NoMembers? then v.lead else RenderMembers(v.members)
  }

  // A container, from its bracket to the matching one.
  lemma {:induction false} ContainerPassed(v: Json, rest: string, depth: nat)
    requires Well(v) && (v.Array? || v.Object?)
    ensures SkipValue(Render(v) + rest, depth) == if depth == 0 then Some(rest) else SkipValue(rest, depth)
    decreases v, 0
  {
    hide SkipValue, WellEscaped, RenderItems, RenderMembers;
    var open, close := if v.Array? then '[' else '{', if v.Array? then ']' else '}';
    var tail := [close] + rest;
    assert Render(v) + rest == [open] + (Inner(v) + tail);
    OnePassed(open, Inner(v) + tail, depth);
    OnePassed(close, rest, depth + 1);
    if v.Array? {
      if v.items.NoItems? {
        BlankPassed(v.lead, tail, depth + 1);
      } else {
        ItemsPassed(v.items, tail, depth + 1);
      }
    } else {
      if v.members.NoMembers? {
        BlankPassed(v.lead, tail, depth + 1);
      } else {
        MembersPassed(v.members, tail, depth + 1);
      }
    }
  }

  lemma {:induction false} ItemsPassed(items: Items, rest: string, depth: nat)
    requires items.Items? && WellItems(items) && depth >= 1
    ensures SkipValue(RenderItems(items) + rest, depth) == SkipValue(rest, depth)
    decreases items
  {
    hide SkipValue, Render, WellEscaped;
    var more := if items.rest.NoItems? then rest else [','] + (RenderItems(items.rest) + rest);
    assert RenderItems(items) + rest == items.before + (Render(items.item) + (items.after + more));
    BlankPassed(items.before, Render(items.item) + (items.after + more), depth);
    ValuePassed(items.item, items.after + more, depth);
    BlankPassed(items.after, more, depth);
    if items.rest.Items? {
      OnePassed(',', RenderItems(items.rest) + rest, depth);
      ItemsPassed(items.rest, rest, depth);
    }
  }

  lemma {:induction false} MembersPassed(ms: Members, rest: string, depth: nat)
    requires ms.Members? && WellMembers(ms) && depth >= 1
    ensures SkipValue(RenderMembers(ms) + rest, depth) == SkipValue(rest, depth)
    decreases ms
  {
    hide SkipValue, Render, WellEscaped, Quoted;
    var more := if ms.rest.NoMembers? then rest else [','] + (RenderMembers(ms.rest) + rest);
    MembersText(ms, rest, more);
    BlankPassed(ms.before,
                Quoted(ms.name) + (ms.mid + ([':'] + (ms.lead + (Render(ms.value) + (ms.after + more))))), depth);
    QuotedSkipped(ms.name, ms.mid + ([':'] + (ms.lead + (Render(ms.value) + (ms.after + more)))), depth);
    BlankPassed(ms.mid, [':'] + (ms.lead + (Render(ms.value) + (ms.after + more))), depth);
    OnePassed(':', ms.lead + (Render(ms.value) + (ms.after + more)), depth);
    BlankPassed(ms.lead, Render(ms.value) + (ms.after + more), depth);
    ValuePassed(ms.value, ms.after + more, depth);
    BlankPassed(ms.after, more, depth);
    if ms.rest.Members? {
      OnePassed(',', RenderMembers(ms.rest) + rest, depth);
      MembersPassed(ms.rest, rest, depth);
    }
  }

  lemma MembersText(ms: Members, rest: string, more: string)
    requires ms.Members?
    requires more == if ms.rest.NoMembers? then rest else [','] + (RenderMembers(ms.rest) + rest)
    ensures RenderMembers(ms) + rest ==
            ms.before + (Quoted(ms.name) + (ms.mid + ([':'] + (ms.lead + (Render(ms.value) + (ms.after + more))))))
  {
    hide Render, Quoted;
  }

  // The skipper stops right after a string or a container, whatever follows.
  lemma WholeSkipped(v: Json, rest: string)
    requires Well(v) && !v.Scalar?
    ensures SkipValue(Render(v) + rest, 0) == Some(rest)
  {
    hide SkipValue, WellEscaped;
    match v
    case Text(raw) => QuotedSkipped(raw, rest, 0);
    case Array(lead, items) => ContainerPassed(v, rest, 0);
    case Object(lead, members) => ContainerPassed(v, rest, 0);
  }

  // After a scalar it stops at the next delimiter.
  lemma {:induction false} ScalarSkipped(text: string, d: char, rest: string)
    requires Quiet(text) && (forall i :: 0 <= i < |text| ==> text[i] != ',') && (d == ',' || IsClose(d))
    ensures SkipValue(text + ([d] + rest), 0) == Some([d] + rest)
  {
    var s := text + ([d] + rest);
    if text == [] {
      assert s == [d] + rest;
    } else {
      ScalarSkipped(text[1..], d, rest);
      assert !Structural(text[0]);
      assert s[0] == text[0] && s[1..] == text[1..] + ([d] + rest);
    }
  }

  // ---------------------------------------------------------------- finding

  // The raw text with its escapes undone; only \" \\ and \/ are taken.
  function Unescaped(raw: string): (r: Option<string>)
    decreases |raw|
  {
    if raw == [] then Some([])
    else if raw[0] == '\\' then
      if |raw| < 2 || !Unescapable(raw[1]) || Unescaped(raw[2..]).None? then None
      else Some([raw[1]] + Unescaped(raw[2..]).value)
    else if Unescaped(raw[1..]).None? then None
    else Some([raw[0]] + Unescaped(raw[1..]).value)
  }

  lemma {:induction false} ReadsUnescaped(raw: string, rest: string, room: nat)
    requires WellEscaped(raw) && room >= 1
    ensures ReadString(raw + (['"'] + rest), room) ==
            if Unescaped(raw).Some? && |Unescaped(raw).value| < room then Unescaped(raw) else None
    decreases |raw|
  {
    var s := raw + (['"'] + rest);
    if raw == [] {
      assert s == ['"'] + rest;
    } else if raw[0] == '\\' {
      assert s[0] == raw[0] && s[1] == raw[1] && s[2..] == raw[2..] + (['"'] + rest);
      if room > 1 {
        ReadsUnescaped(raw[2..], rest, room - 1);
      }
    } else {
      assert s[0] == raw[0] && s[1..] == raw[1..] + (['"'] + rest);
      if room > 1 {
        ReadsUnescaped(raw[1..], rest, room - 1);
      }
    }
  }

  // The value of the first top-level member with the wanted name, ignoring case.
  ghost function Wanted(ms: Members, key: string): Option<Json> {
    if ms.NoMembers? then None
    else if SameName(ms.name, key) then Some(ms.value)
    else Wanted(ms.rest, key)
  }

  ghost function Answer(v: Option<Json>, room: nat): Option<string> {
    if v.None? || !v.value.Text? then None
    else
      var u := Unescaped(v.value.raw);
      if u.Some? && |u.value| < room then u else None
  }

  lemma RenderStarts(v: Json)
    requires Well(v)
    ensures Render(v) != [] && !IsSpace(Render(v)[0]) && (Render(v)[0] == '"' <==> v.Text?)
  {
    if v.Scalar? {
      assert !Structural(v.text[0]) && !IsSpace(v.text[0]);
    }
  }

  lemma SkipToSign(ws: string, c: char, rest: string)
    requires Blank(ws) && !IsSpace(c)
    ensures SkipWs(ws + ([c] + rest)) == [c] + rest
  {
    BlankSkipped(ws, [c] + rest);
  }

  // One member in front: its name, and the text from its value on.
  lemma FirstFound(ms: Members, more: string)
    requires ms.Members? && WellMembers(ms)
    ensures FirstMember(
              ms.before + (Quoted(ms.name) + (ms.mid + ([':'] + (ms.lead + (Render(ms.value) + (ms.after + more)))))))
            == Some((ms.name, Render(ms.value) + (ms.after + more)))
  {
    hide SkipWs, SkipString, Render, WellEscaped;
    var value := Render(ms.value) + (ms.after + more);
    var colon := [':'] + (ms.lead + value);
    var after := ms.mid + colon;
    var s := ms.before + (Quoted(ms.name) + after);
    var quote := ['"'] + (ms.name + (['"'] + after));
    assert Quoted(ms.name) + after == quote;
    SkipToSign(ms.before, '"', ms.name + (['"'] + after));
    assert quote[1..] == ms.name + (['"'] + after);
    StringSkipped(ms.name, after);
    assert quote[1..|quote| - |after| - 1] == ms.name;
    SkipToSign(ms.mid, ':', ms.lead + value);
    assert colon[1..] == ms.lead + value;
    RenderStarts(ms.value);
    BlankSkipped(ms.lead, value);
  }

  lemma NextFound(v: Json, after: string, d: char, rest: string)
    requires Well(v) && Blank(after) && (d == ',' || d == '}')
    ensures NextMember(Render(v) + (after + ([d] + rest))) == if d == ',' then Some(rest) else None
  {
    hide SkipValue, SkipWs, Render, WellEscaped;
    assert ([d] + rest)[1..] == rest;
    if v.Scalar? {
      BlankQuiet(after);
      ScalarText(v);
      ScalarSkipped(v.text + after, d, rest);
      assert v.text + after + ([d] + rest) == v.text + (after + ([d] + rest));
      BlankSkipped([], [d] + rest);
      assert [] + ([d] + rest) == [d] + rest;
    } else {
      WholeSkipped(v, after + ([d] + rest));
      SkipToSign(after, d, rest);
    }
  }

  lemma ScalarText(v: Json)
    requires Well(v) && v.Scalar?
    ensures Render(v) == v.text && ScalarOk(v.text)
  {
  }

  lemma {:induction false} MemberFound(ms: Members, key: string, tail: string, room: nat)
    requires ms.Members? && WellMembers(ms) && room >= 1
    ensures var f := FindMember(RenderMembers(ms) + (['}'] + tail), key);
            && (f.Some? <==> Wanted(ms, key).Some?)
            && (f.Some? ==> exists more: string {:trigger Render(Wanted(ms, key).value) + more} ::
                              f.value == Render(Wanted(ms, key).value) + more && Well(Wanted(ms, key).value))
    decreases ms
  {
    hide FirstMember, NextMember, Render, Quoted, SameName, WellEscaped;
    var rest := ['}'] + tail;
    var more := if ms.rest.NoMembers? then rest else [','] + (RenderMembers(ms.rest) + rest);
    MembersText(ms, rest, more);
    FirstFound(ms, more);
    if !SameName(ms.name, key) {
      if ms.rest.NoMembers? {
        NextFound(ms.value, ms.after, '}', tail);
      } else {
        NextFound(ms.value, ms.after, ',', RenderMembers(ms.rest) + rest);
        MemberFound(ms.rest, key, tail, room);
      }
    }
  }

  // Over every well-formed object, whatever precedes and follows it: the unescaped string of the first top-level
  // member with that name, never a nested one and never the inside of a string.
  lemma FinderIsRight(lead: string, v: Json, tail: string, key: string, room: nat)
    requires Blank(lead) && v.Object? && Well(v) && room >= 1
    ensures GetString(lead + (Render(v) + tail), key, room) == Answer(Wanted(v.members, key), room)
  {
    hide FindMember, ReadString, SkipWs, RenderMembers, WellEscaped, Unescaped, FirstMember;
    var ms := v.members;
    if ms.NoMembers? {
      var inner := v.lead + (['}'] + tail);
      assert Render(v) + tail == ['{'] + inner;
      SkipToSign(lead, '{', inner);
      assert (['{'] + inner)[1..] == inner;
      EmptyObject(v.lead, tail, key);
    } else {
      var inner := RenderMembers(ms) + (['}'] + tail);
      assert Render(v) + tail == ['{'] + inner;
      SkipToSign(lead, '{', inner);
      assert (['{'] + inner)[1..] == inner;
      MemberFound(ms, key, tail, room);
      if Wanted(ms, key).Some? {
        var w := Wanted(ms, key).value;
        var more: string :| FindMember(inner, key).value == Render(w) + more && Well(w);
        WantedRead(w, more, room);
      }
    }
  }

  lemma EmptyObject(ws: string, tail: string, key: string)
    requires Blank(ws)
    ensures FindMember(ws + (['}'] + tail), key) == None
  {
    SkipToSign(ws, '}', tail);
  }

  lemma WantedRead(w: Json, more: string, room: nat)
    requires Well(w) && room >= 1
    ensures var s := Render(w) + more;
            && s != [] && (s[0] == '"' <==> w.Text?)
            && (w.Text? ==> ReadString(s[1..], room) == Answer(Some(w), room))
  {
    RenderStarts(w);
    if w.Text? {
      ReadsUnescaped(w.raw, more, room);
      hide ReadString, Unescaped, WellEscaped;
      assert (Render(w) + more)[1..] == w.raw + (['"'] + more);
    }
  }

  // ---------------------------------------------------------------- which characters count as what

  // Space, tab, line feed, vertical tab, form feed and carriage return.
  lemma SpacesAre(c: char)
    ensures IsSpace(c) <==> c as nat in {9, 10, 11, 12, 13, 32}
  {
  }

  // Equal, or the same letter, one of them a capital.
  predicate SameLetter(a: char, b: char) {
    || a == b
    || ('A' <= a <= 'Z' && b as nat == a as nat + 32)
    || ('A' <= b <= 'Z' && a as nat == b as nat + 32)
  }

  lemma LettersMatch(a: char, b: char)
    ensures Lower(a) == Lower(b) <==> SameLetter(a, b)
  {
  }

  // Names match letter by letter, whether capital or not.
  lemma NamesMatch(a: string, b: string)
    ensures SameName(a, b) <==> |a| == |b| && forall i :: 0 <= i < |a| ==> SameLetter(a[i], b[i])
  {
    if |a| == |b| {
      forall i | 0 <= i < |a| ensures Lower(a[i]) == Lower(b[i]) <==> SameLetter(a[i], b[i]) {
        LettersMatch(a[i], b[i]);
      }
    }
  }

  // Inside a string a backslash is taken in front of a quote, a backslash and a slash, and in front of nothing else.
  lemma EscapesAre(c: char, room: nat)
    requires room >= 2
    ensures ReadString(['\\', c, '"'], room) == if c == '"' || c == '\\' || c == '/' then Some([c]) else None
  {
    var s := ['\\', c, '"'];
    assert s[2..] == ['"'] && ReadString(['"'], room - 1) == Some([]);
    assert [c] + [] == [c];
  }
}
