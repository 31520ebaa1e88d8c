// descriptor_text_parse() of main/descriptor_text.c from end to end: unwrap, trim, check, strip, walk. A replaced
// character in a checksummed descriptor is refused, unless it is the '#' itself or the first character, replaced by
// a blank or a brace.
module DescriptorText {
  import opened Options
  import opened DescriptorKeys
  import opened DescriptorTemplate
  import J = JsonFinder
  import C = DescriptorChecksum
  import L = DescriptorChecksumLaws

  function Trim(s: string): (r: string)
    ensures |r| <= |s| && r == s[..|r|] && (r != [] ==> !J.IsSpace(r[|r| - 1]))
  {
    if s != [] && J.IsSpace(s[|s| - 1]) then Trim(s[..|s| - 1]) else s
  }

  function FirstHash(s: string): (n: nat)
    ensures n <= |s| && (n < |s| ==> s[n] == '#') && forall i :: 0 <= i < n ==> s[i] != '#'
  {
    if s == [] || s[0] == '#' then 0 else 1 + FirstHash(s[1..])
  }

  function Strip(s: string): (r: string)
    ensures forall i :: 0 <= i < |r| ==> !J.IsSpace(r[i])
  {
    if s == [] then [] else (if J.IsSpace(s[0]) then [] else [s[0]]) + Strip(s[1..])
  }

  // The text in front of a correct checksum, or all of it when there is none.
  ghost function Checked(work: string): Result<string> {
    var w := Trim(work);
    var h := FirstHash(w);
    if h == |w| then Ok(w)
    else if |w| - h != 9 || !C.Valid(w[..h], w[h + 1..]) then Err(Invalid)
    else Ok(w[..h])
  }

  ghost function Walked(checked: string): Result<Template> {
    var work := Strip(checked);
    if work == [] then Err(Invalid)
    else
      var t := Walk(work, '(', NOTHING);
      if t.Ok? && t.value.values == [] then Err(Unsupported) else t
  }

  // Plain descriptor text, leading blanks skipped, or the text inside a JSON export.
  ghost function Unwrapped(text: string): Option<string> {
    var p := J.SkipWs(text);
    if p != [] && p[0] == '{' then J.GetString(p, "descriptor", |text| + 1) else Some(p)
  }

  ghost function Read(work: string): Result<Template> {
    var checked := Checked(work);
    if checked.Err? then Err(checked.error) else Walked(checked.value)
  }

  // The template of a payload.
  ghost function Parse(text: string): Result<Template> {
    var work := Unwrapped(text);
    if work.None? then Err(Invalid) else Read(work.value)
  }

  method CheckAt(work: string) returns (r: Result<string>)
    ensures r == Checked(work)
  {
    hide C.Valid;
    var len := |work|;
    assert work[..len] == work;
    while len > 0 && J.IsSpace(work[len - 1])
      invariant 0 <= len <= |work| && Trim(work[..len]) == Trim(work)
    {
      assert work[..len][..len - 1] == work[..len - 1];
      len := len - 1;
    }
    var w := work[..len];
    var hash := FirstHash(w);
    if hash < len {
      if len - hash != 9 {
        return Err(Invalid);
      }
      var ok := C.ChecksumValid(w[..hash], w[hash + 1..]);
      if !ok {
        return Err(Invalid);
      }
      return Ok(w[..hash]);
    }
    return Ok(w);
  }

  method StripAt(s: string) returns (stripped: string)
    ensures stripped == Strip(s)
  {
    stripped := [];
    var i: nat := 0;
    while i < |s|
      invariant i <= |s| && stripped + Strip(s[i..]) == Strip(s)
    {
      assert s[i..][1..] == s[i + 1..];
      if !J.IsSpace(s[i]) {
        stripped := stripped + [s[i]];
      }
      i := i + 1;
    }
    assert stripped + [] == stripped;
  }

  method ParseText(text: string) returns (r: Result<Template>)
    requires text != []
    ensures r == Parse(text)
  {
    hide Walk, Checked, Strip, J.SkipWs, J.GetString;
    assert text[0..] == text;
    var p := J.SkipWsAt(text, 0);
    var work := text[p..];
    if p < |text| && text[p] == '{' {
      var found := J.JsonGetString(work, "descriptor", |text| + 1);
      if found.None? {
        return Err(Invalid);
      }
      work := found.value;
    }
    var checked := CheckAt(work);
    if checked.Err? {
      return Err(checked.error);
    }
    var stripped := StripAt(checked.value);
    if stripped == [] {
      return Err(Invalid);
    }
    r := WalkText(stripped);
    if r.Ok? && r.value.values == [] {
      return Err(Unsupported);
    }
  }

  // ---------------------------------------------------------------- one character replaced

  lemma {:induction false} FirstHashIs(s: string, n: nat)
    requires n <= |s| && (n < |s| ==> s[n] == '#') && forall i :: 0 <= i < n ==> s[i] != '#'
    ensures FirstHash(s) == n
  {
  }

  lemma TrimmedAlready(s: string)
    requires s != [] && !J.IsSpace(s[|s| - 1])
    ensures Trim(s) == s
  {
  }

  lemma ChecksumHasNoHashOrSpace(i: nat)
    requires i < 32
    ensures |C.CHECKSUM_CHARSET| == 32
    ensures C.CHECKSUM_CHARSET[i] != '#' && !J.IsSpace(C.CHECKSUM_CHARSET[i])
  {
  }

  lemma ChecksumChars(text: string, checksum: string, i: nat)
    requires |checksum| == 8 && C.Valid(text, checksum) && i < 8
    ensures checksum[i] != '#' && !J.IsSpace(checksum[i])
  {
    hide C.Computed, C.Symbol, C.CHECKSUM_CHARSET, J.IsSpace;
    C.CharsetSizes();
    ChecksumHasNoHashOrSpace(C.Symbol(C.Computed(text), i) as nat);
  }

  lemma HashNotSpace()
    ensures !J.IsSpace('#')
  {
  }

  // The text in front of its checksum, as the reader is given it.
  function Sealed(text: string, checksum: string): string {
    text + ("#" + checksum)
  }

  // The stage after unwrapping: a replaced character is refused exactly when it is not the '#'.
  lemma CheckRefuses(text: string, checksum: string, i: nat, c: char)
    requires |checksum| == 8 && '#' !in text && C.Valid(text, checksum)
    requires i < |text| + 9 && c in C.INPUT_CHARSET && c != (text + ("#" + checksum))[i]
    ensures Checked(text + ("#" + checksum)) == Ok(text)
    ensures var w := (text + ("#" + checksum))[i := c];
            if i == |text| then Checked(w) == Ok(w) else Checked(w) == Err(Invalid)
  {
    hide C.Valid, C.INPUT_CHARSET, J.IsSpace, FirstHash;
    var n := |text|;
    var work := text + ("#" + checksum);
    forall k | 0 <= k < 8 ensures checksum[k] != '#' && !J.IsSpace(checksum[k]) {
      ChecksumChars(text, checksum, k);
    }
    HashNotSpace();
    TrimmedAlready(work);
    assert work[..n] == text && work[n + 1..] == checksum;
    FirstHashIs(work, n);
    var w := work[i := c];
    if i < n {
      TrimmedAlready(w);
      TextReplaced(text, checksum, i, c);
    } else if i == n {
      TrimmedAlready(w);
      FirstHashIs(w, n + 9);
    } else {
      ChecksumReplaced(text, checksum, i - n - 1, c);
    }
  }

  lemma TextReplaced(text: string, checksum: string, i: nat, c: char)
    requires |checksum| == 8 && '#' !in text && C.Valid(text, checksum) && i < |text|
    requires c in C.INPUT_CHARSET && c != text[i]
    ensures var w := (text + ("#" + checksum))[i := c];
            Trim(w) == w ==> Checked(w) == Err(Invalid)
  {
    hide C.Valid, C.INPUT_CHARSET, FirstHash, Trim, J.IsSpace;
    var n := |text|;
    var w := text[i := c] + ("#" + checksum);
    assert (text + ("#" + checksum))[i := c] == w;
    if c == '#' {
      FirstHashIs(w, i);
    } else {
      FirstHashIs(w, n);
      L.TextSubstitution(text, checksum, i, c);
      assert w[..n] == text[i := c] && w[n + 1..] == checksum;
    }
  }

  lemma ChecksumReplaced(text: string, checksum: string, k: nat, c: char)
    requires |checksum| == 8 && '#' !in text && C.Valid(text, checksum) && k < 8 && c != checksum[k]
    requires forall j :: 0 <= j < 8 ==> !J.IsSpace(checksum[j])
    ensures Checked((text + ("#" + checksum))[|text| + 1 + k := c]) == Err(Invalid)
  {
    hide C.Valid, FirstHash, J.IsSpace, Trim;
    var n := |text|;
    var w := text + ("#" + checksum[k := c]);
    assert (text + ("#" + checksum))[n + 1 + k := c] == w;
    if J.IsSpace(c) && k == 7 {
      LastBlank(text, checksum, c);
    } else {
      assert w[|w| - 1] == checksum[k := c][7];
      TrimmedAlready(w);
      FirstHashIs(w, n);
      L.ChecksumSubstitution(text, checksum, k, c);
      assert w[..n] == text && w[n + 1..] == checksum[k := c];
    }
  }

  lemma LastBlank(text: string, checksum: string, c: char)
    requires |checksum| == 8 && '#' !in text && J.IsSpace(c) && !J.IsSpace(checksum[6])
    ensures Checked(text + ("#" + checksum[7 := c])) == Err(Invalid)
  {
    hide C.Valid, FirstHash, J.IsSpace, Trim;
    var w, short := text + ("#" + checksum[7 := c]), text + ("#" + checksum[..7]);
    assert w[..|w| - 1] == short && w[|w| - 1] == c && short[|short| - 1] == checksum[6];
    TrimmedAlready(short);
    TrimOne(w);
    FirstHashIs(short, |text|);
  }

  lemma TrimOne(s: string)
    requires s != [] && J.IsSpace(s[|s| - 1])
    ensures Trim(s) == Trim(s[..|s| - 1])
  {
  }

  // ---------------------------------------------------------------- through the whole reader

  predicate StartsJson(text: string) {
    text != [] && text[0] == '{'
  }

  lemma PlainStart(text: string)
    requires text != [] && !J.IsSpace(text[0]) && text[0] != '{'
    ensures Unwrapped(text) == Some(text) && Parse(text) == Read(text)
  {
    hide J.GetString, Read;
  }

  // Blanks in front change nothing but where the text starts.
  lemma {:induction false} SkipFront(s: string, rest: string)
    requires rest != [] && !J.IsSpace(rest[0])
    ensures J.SkipWs(s + rest) == J.SkipWs(s) + rest
  {
    if s == [] {
      assert s + rest == rest;
    } else {
      assert (s + rest)[0] == s[0] && (s + rest)[1..] == s[1..] + rest;
      SkipFront(s[1..], rest);
    }
  }

  // A text, its own checksum or another's behind it.
  lemma CheckedSealed(text: string, checksum: string)
    requires |checksum| == 8 && '#' !in text && !J.IsSpace(checksum[7])
    ensures Checked(Sealed(text, checksum)) == if C.Valid(text, checksum) then Ok(text) else Err(Invalid)
  {
    hide C.Valid, J.IsSpace, FirstHash;
    var work := Sealed(text, checksum);
    assert work[|work| - 1] == checksum[7];
    TrimmedAlready(work);
    FirstHashIs(work, |text|);
    assert work[..|text|] == text && work[|text| + 1..] == checksum;
  }

  // What a JSON export says does not depend on a checksum behind it.
  lemma BraceSealed(text: string, checksum: string)
    requires text != [] && text[0] == '{' && |checksum| == 8 && Quiet(checksum)
    ensures Parse(Sealed(text, checksum)) == Parse(text)
  {
    hide J.GetString, Read, Quiet;
    QuietHash(checksum);
    GetQuiet(text, "#" + checksum, "descriptor", |text| + 1, |text| + 10);
    assert Sealed(text, checksum)[0] == '{';
    assert J.SkipWs(text) == text && J.SkipWs(Sealed(text, checksum)) == Sealed(text, checksum);
  }

  // The first character replaced by a blank: blanks are skipped, and what is left is read on its own.
  lemma FirstBlanked(text: string, checksum: string, c: char)
    requires |checksum| == 8 && '#' !in text && text != [] && J.IsSpace(c)
    requires Quiet(checksum) && !J.IsSpace(checksum[7])
    ensures var t, w := J.SkipWs(text[1..]), Sealed(text, checksum)[0 := c];
            && (StartsJson(t) ==> Parse(w) == Parse(t))
            && (!StartsJson(t) ==> Parse(w) == if C.Valid(t, checksum) then Walked(t) else Err(Invalid))
  {
    hide C.Valid, J.GetString, Walked, Checked, Quiet, J.IsSpace;
    var t, w, rest := J.SkipWs(text[1..]), Sealed(text, checksum)[0 := c], "#" + checksum;
    HashNotSpace();
    SkipFront(text[1..], rest);
    assert w[1..] == text[1..] + rest && w[0] == c;
    assert J.SkipWs(w) == Sealed(t, checksum);
    SkippedKeeps(text[1..], '#');
    if StartsJson(t) {
      BraceSealed(t, checksum);
      SameWork(w, Sealed(t, checksum));
    } else {
      CheckedSealed(t, checksum);
    }
  }

  lemma {:induction false} SkippedKeeps(s: string, c: char)
    requires c !in s
    ensures c !in J.SkipWs(s)
  {
    if s != [] {
      SkippedKeeps(s[1..], c);
    }
  }

  // A JSON export with blanks in front.
  lemma SameWork(text: string, p: string)
    requires J.SkipWs(text) == p && p != [] && p[0] == '{'
    ensures Parse(text) == Parse(p)
  {
    hide J.FindMember, J.ReadString, Read;
    AlreadySkipped(p);
    GetRoom(p, "descriptor", |text| + 1, |p| + 1);
  }

  lemma AlreadySkipped(p: string)
    requires p != [] && !J.IsSpace(p[0])
    ensures J.SkipWs(p) == p
  {
  }

  // One character of a checksummed descriptor replaced, through the whole reader. It is refused everywhere but in
  // three places, and there this is what the reader says: without its '#' the text counts as one that carries
  // no checksum; a blank in front is skipped, so the rest is held against the checksum; after a brace in front the
  // text counts as JSON, and its checksum is not looked at.
  lemma SubstitutionRefused(text: string, checksum: string, i: nat, c: char)
    requires |checksum| == 8 && '#' !in text && C.Valid(text, checksum)
    requires text != [] && !J.IsSpace(text[0]) && text[0] != '{'
    requires i < |text| + 9 && c in C.INPUT_CHARSET && c != Sealed(text, checksum)[i]
    ensures Parse(Sealed(text, checksum)) == Walked(text)
    ensures var w, t := Sealed(text, checksum)[i := c], J.SkipWs(text[1..]);
            Parse(w) ==
            if i == |text| then Walked(w)
            else if i == 0 && c == '{' then Parse("{" + text[1..])
            else if i == 0 && J.IsSpace(c) && StartsJson(t) then Parse(t)
            else if i == 0 && J.IsSpace(c) && C.Valid(t, checksum) then Walked(t)
            else Err(Invalid)
  {
    hide C.Valid, C.INPUT_CHARSET, J.IsSpace, J.SkipWs, Checked, Walked, Parse, Quiet;
    CheckRefuses(text, checksum, i, c);
    PlainStart(Sealed(text, checksum));
    ChecksumChars(text, checksum, 7);
    ValidQuiet(text, checksum);
    var w := Sealed(text, checksum)[i := c];
    if i == 0 && J.IsSpace(c) {
      SpaceNoBrace(c);
      FirstBlanked(text, checksum, c);
    } else if i == 0 && c == '{' {
      var brace := "{" + text[1..];
      assert w == Sealed(brace, checksum);
      BraceSealed(brace, checksum);
    } else {
      PlainStart(w);
    }
  }

  lemma SpaceNoBrace(c: char)
    ensures J.IsSpace(c) ==> c != '{'
  {
  }

  // ---------------------------------------------------------------- text that JSON reading cannot use

  // Neither quotes nor anything structural.
  predicate Dead(c: char) {
    && c != '"' && c != '(' && c != ',' && c != ':' && c != '/' && c != '\\'
    && !J.IsOpen(c) && !J.IsClose(c) && !J.IsSpace(c)
  }

  predicate Quiet(s: string) {
    forall i :: 0 <= i < |s| ==> Dead(s[i])
  }

  lemma QuietHash(checksum: string)
    requires Quiet(checksum)
    ensures Quiet("#" + checksum)
  {
  }

  lemma CharsetDead(i: nat)
    requires i < 32
    ensures |C.CHECKSUM_CHARSET| == 32 && Dead(C.CHECKSUM_CHARSET[i])
  {
  }

  lemma ValidQuiet(text: string, checksum: string)
    requires |checksum| == 8 && C.Valid(text, checksum)
    ensures Quiet(checksum)
  {
    hide C.Computed, C.Symbol, C.CHECKSUM_CHARSET, Dead;
    C.CharsetSizes();
    forall i | 0 <= i < 8 ensures Dead(checksum[i]) {
      CharsetDead(C.Symbol(C.Computed(text), i) as nat);
    }
  }

  // The same result, with the quiet text behind what is left.
  function Behind(r: Option<string>, u: string): Option<string> {
    if r.None? then None else Some(r.value + u)
  }

  lemma {:induction false} SkipStringQuiet(s: string, u: string)
    requires Quiet(u)
    ensures J.SkipString(s + u) == Behind(J.SkipString(s), u)
    decreases |s|
  {
    if s == [] {
      assert s + u == u;
      QuietString(u);
    } else {
      assert (s + u)[0] == s[0] && (s + u)[1..] == s[1..] + u;
      if s[0] == '\\' {
        if |s| > 1 {
          assert (s + u)[2..] == s[2..] + u;
          SkipStringQuiet(s[2..], u);
        } else if u != [] {
          assert (s + u)[2..] == u[1..];
          QuietString(u[1..]);
        }
      } else if s[0] != '"' {
        SkipStringQuiet(s[1..], u);
      }
    }
  }

  lemma {:induction false} QuietString(u: string)
    requires Quiet(u)
    ensures J.SkipString(u).None?
  {
    if u != [] {
      assert Dead(u[0]) && forall i :: 0 <= i < |u[1..]| ==> u[1..][i] == u[i + 1];
      QuietString(u[1..]);
    }
  }

  lemma {:induction false} QuietValue(u: string, depth: nat)
    requires Quiet(u)
    ensures J.SkipValue(u, depth).None?
  {
    if u != [] {
      assert Dead(u[0]) && forall i :: 0 <= i < |u[1..]| ==> u[1..][i] == u[i + 1];
      QuietValue(u[1..], depth);
    }
  }

  lemma {:induction false} SkipValueQuiet(s: string, u: string, depth: nat)
    requires Quiet(u)
    ensures J.SkipValue(s + u, depth) == Behind(J.SkipValue(s, depth), u)
    decreases |s|
  {
    hide J.SkipString, Quiet;
    if s == [] {
      assert s + u == u;
      QuietValue(u, depth);
    } else {
      assert (s + u)[0] == s[0] && (s + u)[1..] == s[1..] + u;
      if s[0] == '"' {
        SkipStringQuiet(s[1..], u);
        var r := J.SkipString(s[1..]);
        if r.Some? && depth > 0 {
          SkipValueQuiet(r.value, u, depth);
        }
      } else if J.IsOpen(s[0]) {
        SkipValueQuiet(s[1..], u, depth + 1);
      } else if J.IsClose(s[0]) {
        if depth > 1 {
          SkipValueQuiet(s[1..], u, depth - 1);
        }
      } else if s[0] != ',' || depth > 0 {
        SkipValueQuiet(s[1..], u, depth);
      }
    }
  }

  lemma SkipWsQuiet(s: string, u: string)
    requires Quiet(u)
    ensures J.SkipWs(s + u) == J.SkipWs(s) + u
    ensures J.SkipWs(s) == [] ==> J.SkipWs(s + u) == u && (u != [] ==> Dead(u[0]))
  {
    if u == [] {
      assert s + u == s;
      assert J.SkipWs(s) + u == J.SkipWs(s);
    } else {
      SkipFront(s, u);
    }
  }

  lemma FirstMemberQuiet(s: string, u: string)
    requires Quiet(u)
    ensures var r, q := J.FirstMember(s), J.FirstMember(s + u);
            if r.None? then q.None? else q == Some((r.value.0, r.value.1 + u))
  {
    hide J.SkipWs, J.SkipString, Quiet;
    SkipWsQuiet(s, u);
    var quote := J.SkipWs(s);
    if quote != [] && quote[0] == '"' {
      var all := quote + u;
      assert all[1..] == quote[1..] + u;
      SkipStringQuiet(quote[1..], u);
      var after := J.SkipString(quote[1..]);
      if after.Some? {
        SkipWsQuiet(after.value, u);
        assert all[1..|quote| - |after.value| - 1] == quote[1..|quote| - |after.value| - 1];
        var colon := J.SkipWs(after.value);
        if colon != [] && colon[0] == ':' {
          assert (colon + u)[1..] == colon[1..] + u;
          SkipWsQuiet(colon[1..], u);
        }
      }
    }
  }

  lemma NextMemberQuiet(value: string, u: string)
    requires Quiet(u)
    ensures J.NextMember(value + u) == Behind(J.NextMember(value), u)
  {
    hide J.SkipWs, J.SkipValue, Quiet;
    SkipValueQuiet(value, u, 0);
    var skipped := J.SkipValue(value, 0);
    if skipped.Some? {
      SkipWsQuiet(skipped.value, u);
      var comma := J.SkipWs(skipped.value);
      if comma != [] {
        assert (comma + u)[1..] == comma[1..] + u;
      }
    }
  }

  lemma {:induction false} FindQuiet(s: string, u: string, key: string)
    requires Quiet(u)
    ensures J.FindMember(s + u, key) == Behind(J.FindMember(s, key), u)
    decreases |s|
  {
    hide J.FirstMember, J.NextMember, Quiet, J.SameName;
    FirstMemberQuiet(s, u);
    if J.FirstMember(s).Some? {
      var (name, value) := J.FirstMember(s).value;
      NextMemberQuiet(value, u);
      if !J.SameName(name, key) && J.NextMember(value).Some? {
        FindQuiet(J.NextMember(value).value, u, key);
      }
    }
  }

  lemma {:induction false} ReadQuiet(s: string, u: string, room: nat, more: nat)
    requires Quiet(u) && room > |s| && more > |s|
    ensures J.ReadString(s + u, more) == J.ReadString(s, room)
    decreases |s|
  {
    if s == [] {
      assert s + u == u;
      QuietRead(u, more);
    } else {
      assert (s + u)[0] == s[0] && (s + u)[1..] == s[1..] + u;
      if s[0] == '\\' {
        if |s| > 1 {
          assert (s + u)[1] == s[1] && (s + u)[2..] == s[2..] + u;
          ReadQuiet(s[2..], u, room - 1, more - 1);
        } else if u != [] {
          assert (s + u)[1] == u[0] && Dead(u[0]);
        }
      } else if s[0] != '"' {
        ReadQuiet(s[1..], u, room - 1, more - 1);
      }
    }
  }

  lemma {:induction false} QuietRead(u: string, room: nat)
    requires Quiet(u) && room >= 1
    ensures J.ReadString(u, room).None?
    decreases |u|
  {
    if u != [] {
      assert Dead(u[0]) && forall i :: 0 <= i < |u[1..]| ==> u[1..][i] == u[i + 1];
      if room > 1 {
        QuietRead(u[1..], room - 1);
      }
    }
  }

  lemma GetQuiet(s: string, u: string, key: string, room: nat, more: nat)
    requires Quiet(u) && room > |s| && more > |s|
    ensures J.GetString(s + u, key, more) == J.GetString(s, key, room)
  {
    hide J.SkipWs, J.FindMember, J.ReadString, Quiet;
    SkipWsQuiet(s, u);
    var brace := J.SkipWs(s);
    if brace != [] && brace[0] == '{' {
      assert (brace + u)[1..] == brace[1..] + u;
      FindQuiet(brace[1..], u, key);
      var value := J.FindMember(brace[1..], key);
      if value.Some? {
        if value.value == [] {
          assert value.value + u == u;
          QuietStart(u);
        } else {
          assert (value.value + u)[1..] == value.value[1..] + u;
          ReadQuiet(value.value[1..], u, room, more);
        }
      }
    }
  }

  lemma QuietStart(u: string)
    requires Quiet(u)
    ensures u == [] || u[0] != '"'
  {
  }

  lemma GetRoom(s: string, key: string, room: nat, more: nat)
    requires room > |s| && more > |s|
    ensures J.GetString(s, key, more) == J.GetString(s, key, room)
  {
    assert s + [] == s;
    GetQuiet(s, [], key, room, more);
  }
}
