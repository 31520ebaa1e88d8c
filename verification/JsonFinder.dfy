// The JSON member finder of main/descriptor_text.c: skipping a value and reading a string member, as functions
// of the text still to come and as the loops of the source.
module JsonFinder {
  import opened Options

  // isspace()
  predicate IsSpace(c: char) {
    c == ' ' || '\t' <= c <= '\r'
  }

  predicate IsOpen(c: char) {
    c == '{' || c == '['
  }

  predicate IsClose(c: char) {
    c == '}' || c == ']'
  }

  function Lower(c: char): char {
    if 'A' <= c <= 'Z' then c - 'A' + 'a' else c
  }

  // strncasecmp() over equally long names
  ghost predicate SameName(a: string, b: string) {
    |a| == |b| && forall i :: 0 <= i < |a| ==> Lower(a[i]) == Lower(b[i])
  }

  function SkipWs(s: string): (r: string)
    ensures |r| <= |s|
    ensures r != [] ==> !IsSpace(r[0])
  {
    if s != [] && IsSpace(s[0]) then SkipWs(s[1..]) else s
  }

  // From after the opening quote to after the closing one.
  function SkipString(s: string): (r: Option<string>)
    ensures r.Some? ==> |r.value| < |s|
    decreases |s|
  {
    if s == [] then None
    else if s[0] == '"' then Some(s[1..])
    else if s[0] != '\\' then SkipString(s[1..])
    else if |s| == 1 then None
    else SkipString(s[2..])
  }

  function SkipValue(s: string, depth: nat): (r: Option<string>)
    ensures r.Some? ==> |r.value| <= |s|
    decreases |s|
  {
    if s == [] then None
    else if s[0] == '"' then
      var r := SkipString(s[1..]);
      if r.None? || depth == 0 then r else SkipValue(r.value, depth)
    else if IsOpen(s[0]) then SkipValue(s[1..], depth + 1)
    else if IsClose(s[0]) then
      if depth == 0 then Some(s) else if depth == 1 then Some(s[1..]) else SkipValue(s[1..], depth - 1)
    else if s[0] == ',' && depth == 0 then Some(s)
    else SkipValue(s[1..], depth)
  }

  // From after an opening brace or a comma: a member's raw name, and the text from its value on.
  function FirstMember(s: string): (r: Option<(string, string)>)
    ensures r.Some? ==> |r.value.1| <= |s|
  {
    var quote := SkipWs(s);
    if quote == [] || quote[0] != '"' then None
    else
      var after := SkipString(quote[1..]);
      if after.None? then None
      else
        var colon := SkipWs(after.value);
        if colon == [] || colon[0] != ':' then None
        else Some((quote[1..|quote| - |after.value| - 1], SkipWs(colon[1..])))
  }

  // From a value to after the comma that follows it.
  function NextMember(value: string): (r: Option<string>)
    ensures r.Some? ==> |r.value| < |value|
  {
    var skipped := SkipValue(value, 0);
    if skipped.None? then None
    else
      var comma := SkipWs(skipped.value);
      if comma == [] || comma[0] != ',' then None else Some(comma[1..])
  }

  // To the value of the first member with the wanted name.
  ghost function FindMember(s: string, key: string): (r: Option<string>)
    ensures r.Some? ==> |r.value| <= |s|
    decreases |s|
  {
    if FirstMember(s).None? then None
    else
      var (name, value) := FirstMember(s).value;
      if SameName(name, key) then Some(value)
      else if NextMember(value).None? then None
      else FindMember(NextMember(value).value, key)
  }

  predicate Unescapable(c: char) {
    c == '"' || c == '\\' || c == '/'
  }

  // The characters up to the closing quote, unescaped, into `room` bytes with one kept for the terminator.
  function ReadString(s: string, room: nat): (r: Option<string>)
    requires room >= 1
    decreases |s|
  {
    if s == [] then None
    else if s[0] == '"' then Some([])
    else if s[0] == '\\' && (|s| == 1 || !Unescapable(s[1])) then None
    else if room == 1 then None
    else
      var (c, rest) := if s[0] == '\\' then (s[1], s[2..]) else (s[0], s[1..]);
      var more := ReadString(rest, room - 1);
      if more.None? then None else Some([c] + more.value)
  }

  ghost function GetString(s: string, key: string, room: nat): Option<string>
    requires room >= 1
  {
    var brace := SkipWs(s);
    if brace == [] || brace[0] != '{' then None
    else
      var value := FindMember(brace[1..], key);
      if value.None? || value.value == [] || value.value[0] != '"' then None
      else ReadString(value.value[1..], room)
  }

  // ---------------------------------------------------------------- the loops

  method SkipWsAt(text: string, p0: nat) returns (p: nat)
    requires p0 <= |text|
    ensures p0 <= p <= |text| && text[p..] == SkipWs(text[p0..])
  {
    p := p0;
    while p < |text| && IsSpace(text[p])
      invariant p0 <= p <= |text| && SkipWs(text[p..]) == SkipWs(text[p0..])
    {
      assert text[p..][1..] == text[p + 1..];
      p := p + 1;
    }
  }

  // p0 is at the opening quote.
  method SkipStringAt(text: string, p0: nat) returns (r: Option<nat>)
    requires p0 < |text|
    ensures r.Some? <==> SkipString(text[p0 + 1..]).Some?
    ensures r.Some? ==> p0 + 1 < r.value <= |text| && Some(text[r.value..]) == SkipString(text[p0 + 1..])
  {
    var p := p0 + 1;
    while p < |text|
      invariant p0 + 1 <= p <= |text| && SkipString(text[p..]) == SkipString(text[p0 + 1..])
    {
      ghost var s := text[p..];
      assert s[1..] == text[p + 1..];
      var c := text[p];
      p := p + 1;
      if c == '"' {
        return Some(p);
      }
      if c == '\\' {
        if p >= |text| {
          return None;
        }
        assert s[2..] == text[p + 1..];
        p := p + 1;
      }
    }
    return None;
  }

  method SkipValueAt(text: string, p0: nat) returns (r: Option<nat>)
    requires p0 <= |text|
    ensures r.Some? <==> SkipValue(text[p0..], 0).Some?
    ensures r.Some? ==> p0 <= r.value <= |text| && Some(text[r.value..]) == SkipValue(text[p0..], 0)
  {
    var depth: nat, p: nat := 0, p0;
    while p < |text|
      invariant p0 <= p <= |text| && SkipValue(text[p..], depth) == SkipValue(text[p0..], 0)
      decreases |text| - p
    {
      assert text[p..][1..] == text[p + 1..];
      if text[p] == '"' {
        var q := SkipStringAt(text, p);
        if q.None? {
          return None;
        }
        p := q.value;
        if depth == 0 {
          return Some(p);
        }
        continue;
      }
      if IsOpen(text[p]) {
        depth := depth + 1;
      } else if IsClose(text[p]) {
        if depth == 0 {
          return Some(p);
        }
        depth := depth - 1;
        if depth == 0 {
          return Some(p + 1);
        }
      } else if text[p] == ',' && depth == 0 {
        return Some(p);
      }
      p := p + 1;
    }
    return None;
  }

  method NameMatches(text: string, from: nat, len: nat, key: string) returns (same: bool)
    requires from + len <= |text|
    ensures same == SameName(text[from..from + len], key)
  {
    if len != |key| {
      return false;
    }
    for i := 0 to len
      invariant forall k :: 0 <= k < i ==> Lower(text[from + k]) == Lower(key[k])
    {
      if Lower(text[from + i]) != Lower(key[i]) {
        assert text[from..from + len][i] == text[from + i];
        return false;
      }
    }
    return true;
  }

  // One member's name and where its value starts; p0 is at the brace or comma before it.
  method FirstMemberAt(text: string, p0: nat) returns (r: Option<(nat, nat, nat)>)
    requires p0 < |text|
    ensures r.Some? <==> FirstMember(text[p0 + 1..]).Some?
    ensures r.Some? ==>
              var (from, len, p) := r.value;
              && from + len <= |text| && p0 < p <= |text|
              && Some((text[from..from + len], text[p..])) == FirstMember(text[p0 + 1..])
  {
    hide SkipString, SkipWs;
    var p := SkipWsAt(text, p0 + 1);
    if p >= |text| || text[p] != '"' {
      return None;
    }
    var name := p + 1;
    ghost var quote := text[p..];
    assert quote[1..] == text[name..];
    var q := SkipStringAt(text, p);
    if q.None? {
      return None;
    }
    p := q.value;
    var len := p - name - 1;
    assert text[name..name + len] == quote[1..|quote| - |text[p..]| - 1];
    p := SkipWsAt(text, p);
    if p >= |text| || text[p] != ':' {
      return None;
    }
    assert text[p..][1..] == text[p + 1..];
    p := SkipWsAt(text, p + 1);
    return Some((name, len, p));
  }

  // Past a value to the comma after it.
  method NextMemberAt(text: string, p0: nat) returns (r: Option<nat>)
    requires p0 <= |text|
    ensures r.Some? <==> NextMember(text[p0..]).Some?
    ensures r.Some? ==> p0 <= r.value < |text| && Some(text[r.value + 1..]) == NextMember(text[p0..])
  {
    hide SkipValue, SkipWs;
    var q := SkipValueAt(text, p0);
    if q.None? {
      return None;
    }
    var p := SkipWsAt(text, q.value);
    if p >= |text| || text[p] != ',' {
      return None;
    }
    assert text[p..][1..] == text[p + 1..];
    return Some(p);
  }

  // The loop over top-level members; p0 is at the opening brace.
  method FindMemberAt(text: string, p0: nat, key: string) returns (r: Option<nat>)
    requires p0 < |text|
    ensures r.Some? <==> FindMember(text[p0 + 1..], key).Some?
    ensures r.Some? ==> p0 < r.value <= |text| && Some(text[r.value..]) == FindMember(text[p0 + 1..], key)
  {
    hide FirstMember, NextMember, SameName;
    var p := p0;
    while true
      invariant p0 <= p < |text| && FindMember(text[p + 1..], key) == FindMember(text[p0 + 1..], key)
      decreases |text| - p
    {
      var m := FirstMemberAt(text, p);
      if m.None? {
        return None;
      }
      var (from, len, value) := m.value;
      var matches := NameMatches(text, from, len, key);
      if matches {
        return Some(value);
      }
      var q := NextMemberAt(text, value);
      if q.None? {
        return None;
      }
      p := q.value;
    }
  }

  method ReadStringAt(text: string, p0: nat, room: nat) returns (r: Option<string>)
    requires p0 <= |text| && room >= 1
    ensures r == ReadString(text[p0..], room)
  {
    var p, out: string := p0, [];
    assert ReadString(text[p0..], room).Some? ==>
        [] + ReadString(text[p0..], room).value == ReadString(text[p0..], room).value;
    while p < |text| && text[p] != '"'
      invariant p0 <= p <= |text| && |out| < room
      invariant ReadString(text[p0..], room) ==
                var more := ReadString(text[p..], room - |out|); if more.None? then None else Some(out + more.value)
      decreases |text| - p
    {
      ghost var s := text[p..];
      assert s[1..] == text[p + 1..];
      var c := text[p];
      p := p + 1;
      if c == '\\' {
        if p >= |text| {
          return None;
        }
        assert s[2..] == text[p + 1..];
        c := text[p];
        p := p + 1;
        if c != '"' && c != '\\' && c != '/' {
          return None;
        }
      }
      if |out| + 1 >= room {
        return None;
      }
      ghost var more := ReadString(text[p..], room - |out| - 1);
      assert more.Some? ==> out + ([c] + more.value) == out + [c] + more.value;
      out := out + [c];
    }
    if p >= |text| {
      return None;
    }
    assert out + [] == out;
    return Some(out);
  }

  // json_get_string()
  method JsonGetString(text: string, key: string, room: nat) returns (r: Option<string>)
    requires room >= 1
    ensures r == GetString(text, key, room)
  {
    hide SkipWs, FindMember, ReadString;
    assert text[0..] == text;
    var p := SkipWsAt(text, 0);
    if p >= |text| || text[p] != '{' {
      return None;
    }
    assert text[p..][1..] == text[p + 1..];
    var q := FindMemberAt(text, p, key);
    if q.None? || q.value >= |text| || text[q.value] != '"' {
      return None;
    }
    assert text[q.value..][1..] == text[q.value + 1..];
    r := ReadStringAt(text, q.value + 1, room);
  }
}
