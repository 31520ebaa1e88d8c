// The output descriptor reader of main/bcur.c: hdkey_to_text() and bcur_parse_crypto_output() over a CBOR cursor.
module CborOutput {
  import opened Options
  import opened CborTree
  import K = DescriptorKeys

  const TAG_OUTPUT := 308
  const TAG_OUTPUT_NEW := 40308
  const TAG_SH := 400
  const TAG_WSH := 401
  const TAG_PKH := 403
  const TAG_WPKH := 404
  const TAG_MULTI := 406
  const TAG_SORTEDMULTI := 407
  const TAG_HDKEY := 303
  const TAG_HDKEY_NEW := 40303
  const TAG_KEYPATH := 304
  const TAG_KEYPATH_NEW := 40304
  const TAG_USEINFO := 305
  const TAG_USEINFO_NEW := 40305

  const MAX_PATH_LEN := 16
  const PATH_SIZE := 194         // MAX_PATH_STR_LEN(MAX_PATH_LEN)
  const MAX_SIGNERS := 15
  const HARDENED := 0x8000_0000
  const UINT32_MAX := 0xffff_ffff

  datatype Error = Unsupported | Invalid | TooLarge | TooMany
  datatype Result<T> = Ok(value: T) | Err(error: Error)

  // What the extended public key is made of.
  datatype KeyData = KeyData(test: bool, depth: nat, child: nat, chain: seq<nat>, key: seq<nat>, parent: nat)

  // bip32_key_init() and bip32_key_to_base58()
  type Base58 = KeyData -> Option<string>

  // ---------------------------------------------------------------- small readers

  // Step over one tag if it is one of two.
  function SkipTagIf(c: Cursor, a: nat, b: nat): (Cursor, bool) {
    if IsTag(c) && (c.toks[0].tag == a || c.toks[0].tag == b) && AdvanceFixed(c).Some?
    then (AdvanceFixed(c).value, true)
    else (c, false)
  }

  function SkipOneTag(c: Cursor): Option<(Cursor, nat)> {
    if IsTag(c) && AdvanceFixed(c).Some? then Some((AdvanceFixed(c).value, c.toks[0].tag)) else None
  }

  function GetUint32(c: Cursor): (r: Option<nat>)
    ensures r.Some? ==> r.value <= UINT32_MAX
  {
    if First(c).Some? && First(c).value.UIntT? && First(c).value.v <= UINT32_MAX then Some(First(c).value.v) else None
  }

  function GetBool(c: Cursor): Option<bool> {
    if First(c).Some? && First(c).value.BoolT? then Some(First(c).value.b) else None
  }

  function GetBytes(c: Cursor, len: nat): Option<seq<nat>> {
    if First(c).Some? && First(c).value.BytesT? && |First(c).value.bytes| == len
    then Some(First(c).value.bytes)
    else None
  }

  predicate IsArray(c: Cursor) {
    First(c).Some? && First(c).value.ArrayT?
  }

  // ---------------------------------------------------------------- the origin path

  datatype Path = Path(text: string, count: nat, last: nat)

  function Component(index: nat, hardened: bool, first: bool): string {
    (if first then "" else "/") + (K.Dec(index) + (if hardened then "h" else ""))
  }

  // One number and its flag; where they end.
  function NextComponent(it: Cursor): (r: Option<(nat, bool, Cursor)>)
    ensures r.Some? ==> |r.value.2.toks| < |it.toks| && r.value.0 <= K.MAX_CHILD_INDEX
  {
    if GetUint32(it).None? || GetUint32(it).value > K.MAX_CHILD_INDEX || Advance(it).None? then None
    else
      var flag := Advance(it).value;
      if GetBool(flag).None? || Advance(flag).None? then None
      else Some((GetUint32(it).value, GetBool(flag).value, Advance(flag).value))
  }

  function PathFrom(it: Cursor, p: Path): Option<Path>
    decreases |it.toks|
  {
    if AtEnd(it) then Some(p)
    else if p.count >= MAX_PATH_LEN || NextComponent(it).None? then None
    else
      var (index, hardened, next) := NextComponent(it).value;
      var piece := Component(index, hardened, p.count == 0);
      if |p.text| + |piece| >= PATH_SIZE then None
      else PathFrom(next, Path(p.text + piece, p.count + 1, if hardened then index + HARDENED else index))
  }

  function OriginPath(c: Cursor): Option<Path> {
    if !IsArray(c) || Enter(c).None? then None else PathFrom(Enter(c).value, Path("", 0, 0))
  }

  method OriginComponentsToPath(c: Cursor) returns (r: Option<Path>)
    ensures r == OriginPath(c)
  {
    hide NextComponent, Component;
    if !IsArray(c) || Enter(c).None? {
      return None;
    }
    var it := Enter(c).value;
    var text, count: nat, last: nat := "", 0, 0;
    while !AtEnd(it)
      invariant PathFrom(it, Path(text, count, last)) == OriginPath(c)
      decreases |it.toks|
    {
      if count >= MAX_PATH_LEN || NextComponent(it).None? {
        return None;
      }
      var (index, hardened, next) := NextComponent(it).value;
      var piece := Component(index, hardened, count == 0);
      if |text| + |piece| >= PATH_SIZE {
        return None;
      }
      text := text + piece;
      last := if hardened then index + HARDENED else index;
      count := count + 1;
      it := next;
    }
    return Some(Path(text, count, last));
  }

  // ---------------------------------------------------------------- the child path

  // '[a, false, b, false]'
  function BranchPair(c: Cursor): Option<(nat, nat)> {
    if NextComponent(c).None? then None
    else
      var (a, ha, second) := NextComponent(c).value;
      if GetUint32(second).None? || Advance(second).None? || GetBool(Advance(second).value).None? then None
      else
        var b, hb := GetUint32(second).value, GetBool(Advance(second).value).value;
        if ha || hb || b > K.MAX_CHILD_INDEX then None else Some((a, b))
  }

  // '[[a, false, b, false], [], false]' and nothing else
  function Children(c: Cursor): Option<string> {
    if !IsArray(c) || Enter(c).None? then None
    else
      var it := Enter(c).value;
      if !IsArray(it) || it.toks[0].len != 4 || Enter(it).None? || BranchPair(Enter(it).value).None?
         || Advance(it).None? then None
      else
        var wild := Advance(it).value;
        if !IsArray(wild) || wild.toks[0].len != 0 || Advance(wild).None? then None
        else
          var flag := Advance(wild).value;
          if GetBool(flag) != Some(false) || Advance(flag).None? || !AtEnd(Advance(flag).value) then None
          else
            var (a, b) := BranchPair(Enter(it).value).value;
            Some(K.ChildText(a, b))
  }

  // ---------------------------------------------------------------- one key

  // Key 5: Bitcoin, main or test network; both parts default.
  ghost function Network(key: Cursor): Option<bool> {
    if Find(key, 5).None? then Some(false)
    else
      var info := SkipTagIf(Find(key, 5).value, TAG_USEINFO, TAG_USEINFO_NEW).0;
      if !KeysUnique(info) || (Find(info, 1).Some? && GetUint32(Find(info, 1).value) != Some(0)) then None
      else if Find(info, 2).None? then Some(false)
      else
        var net := GetUint32(Find(info, 2).value);
        if net.None? || net.value > 1 then None else Some(net.value == 1)
  }

  datatype Origin = Origin(fingerprint: nat, path: Path, depth: nat)

  // Key 6: path and fingerprint, and a depth that may be declared apart.
  ghost function ReadOrigin(key: Cursor): Result<Origin> {
    if Find(key, 6).None? then Err(Unsupported)
    else
      var origin := SkipTagIf(Find(key, 6).value, TAG_KEYPATH, TAG_KEYPATH_NEW).0;
      if !KeysUnique(origin) || Find(origin, 1).None? || OriginPath(Find(origin, 1).value).None?
         || Find(origin, 2).None? || GetUint32(Find(origin, 2).value).None? then Err(Unsupported)
      else
        var path, fp := OriginPath(Find(origin, 1).value).value, GetUint32(Find(origin, 2).value).value;
        if Find(origin, 3).None? then Ok(Origin(fp, path, path.count))
        else
          var depth := GetUint32(Find(origin, 3).value);
          if depth.None? || depth.value > 255 then Err(Invalid) else Ok(Origin(fp, path, depth.value))
  }

  // Key 7: the branches, '<0;1>/*' when absent.
  ghost function ReadChildren(key: Cursor): Option<string> {
    if Find(key, 7).None? then Some("/<0;1>/*")
    else
      var path := SkipTagIf(Find(key, 7).value, TAG_KEYPATH, TAG_KEYPATH_NEW).0;
      if !KeysUnique(path) || Find(path, 1).None? then None else Children(Find(path, 1).value)
  }

  // The lowest k hexadecimal digits.
  function Hex(n: nat, k: nat): (s: string)
    ensures |s| == k && forall i :: 0 <= i < k ==> s[i] != '(' && s[i] != ')'
  {
    if k == 0 then []
    else
      var d := n % 16;
      Hex(n / 16, k - 1) + [if d < 10 then '0' + d as char else 'a' + (d - 10) as char]
  }

  function KeyText(o: Origin, xpub: string, child: string): string {
    "[" + (Hex(o.fingerprint, 8) + ((if o.path.text != "" then "/" + o.path.text else "") + ("]" + (xpub + child))))
  }

  // hdkey_to_text(): '[fp/path]xpub/<a;b>/*' into a buffer of `room` bytes
  ghost function HdkeyText(value: Cursor, room: nat, base58: Base58): Result<string> {
    var key := SkipTagIf(value, TAG_HDKEY, TAG_HDKEY_NEW).0;
    if !KeysUnique(key) then Err(Unsupported)
    else if Find(key, 2).Some? && GetBool(Find(key, 2).value) != Some(false) then Err(Unsupported)
    else if Find(key, 3).None? || GetBytes(Find(key, 3).value, 33).None? then Err(Invalid)
    else if Find(key, 4).None? || GetBytes(Find(key, 4).value, 32).None? then Err(Invalid)
    else if Network(key).None? then Err(Unsupported)
    else if ReadOrigin(key).Err? then Err(ReadOrigin(key).error)
    else if Find(key, 8).Some? && GetUint32(Find(key, 8).value).None? then Err(Invalid)
    else if ReadChildren(key).None? then Err(Unsupported)
    else
      var o := ReadOrigin(key).value;
      var parent := if Find(key, 8).Some? then GetUint32(Find(key, 8).value).value else 0;
      var xpub := base58(KeyData(Network(key).value, o.depth, if o.depth != 0 then o.path.last else 0,
                                 GetBytes(Find(key, 4).value, 32).value,
                                  GetBytes(Find(key, 3).value, 33).value, parent));
      if xpub.None? then Err(Invalid)
      else
        var text := KeyText(o, xpub.value, ReadChildren(key).value);
        if |text| >= room then Err(TooLarge) else Ok(text)
  }

  // ---------------------------------------------------------------- the whole descriptor

  // APPEND_TEXT
  function Append(text: string, s: string, room: nat): Result<string> {
    if |text| + |s| >= room then Err(TooLarge) else Ok(text + s)
  }

  function Then(text: Result<string>, s: string, room: nat): Result<string> {
    if text.Err? then text else Append(text.value, s, room)
  }

  // n keys from the cursor on, each after a comma.
  ghost function KeysText(c: Cursor, n: nat, text: string, room: nat, base58: Base58): Result<string>
    decreases n
  {
    if n == 0 then Ok(text)
    else if Append(text, ",", room).Err? then Err(TooLarge)
    else
      var t := Append(text, ",", room).value;
      var key := HdkeyText(c, room - |t|, base58);
      if key.Err? then key
      else if AdvanceOver(SkipTagIf(c, TAG_HDKEY, TAG_HDKEY_NEW).0).None? then Err(Invalid)
      else KeysText(AdvanceOver(SkipTagIf(c, TAG_HDKEY, TAG_HDKEY_NEW).0).value, n - 1, t + key.value, room, base58)
  }

  function Closed(text: Result<string>, closers: nat, room: nat): Result<string>
    decreases closers
  {
    if closers == 0 then text else Closed(Then(text, ")", room), closers - 1, room)
  }

  // wsh(multi(...)) and wsh(sortedmulti(...)): the text without its closing brackets.
  ghost function MultiText(value: Cursor, text: string, room: nat, base58: Base58): Result<string> {
    var skipped := SkipOneTag(value);
    if skipped.None? || (skipped.value.1 != TAG_MULTI && skipped.value.1 != TAG_SORTEDMULTI) then Err(Unsupported)
    else
      var (map_, tag) := skipped.value;
      if !KeysUnique(map_) then Err(Unsupported)
      else if Find(map_, 1).None? || GetUint32(Find(map_, 1).value).None? || GetUint32(Find(map_, 1).value).value == 0
      then Err(Invalid)
      else if Find(map_, 2).None? || !IsArray(Find(map_, 2).value) || Find(map_, 2).value.toks[0].len == 0
      then Err(Invalid)
      else
        var threshold, keys := GetUint32(Find(map_, 1).value).value, Find(map_, 2).value;
        var n := keys.toks[0].len;
        if n > MAX_SIGNERS then Err(TooMany)
        else if threshold > n then Err(Invalid)
        else
          var multi := if tag == TAG_SORTEDMULTI then "sortedmulti" else "multi";
          var t := Append(text, multi + ("(" + K.Dec(threshold)), room);
          if t.Err? then t
          else if Enter(keys).None? then Err(Invalid)
          else KeysText(Enter(keys).value, n, t.value, room, base58)
  }

  // bcur_parse_crypto_output()
  ghost function OutputText(value: Cursor, room: nat, base58: Base58): Result<string> {
    var (inner, sh) := SkipTagIf(SkipTagIf(value, TAG_OUTPUT, TAG_OUTPUT_NEW).0, TAG_SH, TAG_SH);
    var text := if sh then Append("", "sh(", room) else Ok("");
    if text.Err? then text
    else if SkipOneTag(inner).None? then Err(Unsupported)
    else
      var (content, tag) := SkipOneTag(inner).value;
      var closers := if sh then 1 else 0;
      if tag == TAG_WSH then
        var t := Append(text.value, "wsh(", room);
        if t.Err? then t else Closed(MultiText(content, t.value, room, base58), closers + 2, room)
      else if tag == TAG_WPKH || tag == TAG_PKH then
        var t := Append(text.value, if tag == TAG_WPKH then "wpkh(" else "pkh(", room);
        if t.Err? then t
        else
          var key := HdkeyText(content, room - |t.value|, base58);
          if key.Err? then key else Closed(Ok(t.value + key.value), closers + 1, room)
      else Err(Unsupported)
  }

  // ---------------------------------------------------------------- the same, step by step

  method ReadNetworkAt(key: Cursor) returns (r: Option<bool>)
    ensures r == Network(key)
  {
    hide Find, KeysUnique;
    var item := MapFindUintKey(key, 5);
    if item.None? {
      return Some(false);
    }
    var info := SkipTagIf(item.value, TAG_USEINFO, TAG_USEINFO_NEW).0;
    var unique := MapKeysAreUniqueUints(info);
    if !unique {
      return None;
    }
    var field := MapFindUintKey(info, 1);
    if field.Some? && GetUint32(field.value) != Some(0) {
      return None;
    }
    field := MapFindUintKey(info, 2);
    if field.None? {
      return Some(false);
    }
    var net := GetUint32(field.value);
    if net.None? || net.value > 1 {
      return None;
    }
    return Some(net.value == 1);
  }

  method ReadOriginAt(key: Cursor) returns (r: Result<Origin>)
    ensures r == ReadOrigin(key)
  {
    hide Find, KeysUnique, OriginPath;
    var item := MapFindUintKey(key, 6);
    if item.None? {
      return Err(Unsupported);
    }
    var origin := SkipTagIf(item.value, TAG_KEYPATH, TAG_KEYPATH_NEW).0;
    var unique := MapKeysAreUniqueUints(origin);
    if !unique {
      return Err(Unsupported);
    }
    item := MapFindUintKey(origin, 1);
    if item.None? {
      return Err(Unsupported);
    }
    var path := OriginComponentsToPath(item.value);
    if path.None? {
      return Err(Unsupported);
    }
    item := MapFindUintKey(origin, 2);
    if item.None? || GetUint32(item.value).None? {
      return Err(Unsupported);
    }
    var fingerprint, depth := GetUint32(item.value).value, path.value.count;
    item := MapFindUintKey(origin, 3);
    if item.Some? {
      var declared := GetUint32(item.value);
      if declared.None? || declared.value > 255 {
        return Err(Invalid);
      }
      depth := declared.value;
    }
    return Ok(Origin(fingerprint, path.value, depth));
  }

  method ReadChildrenAt(key: Cursor) returns (r: Option<string>)
    ensures r == ReadChildren(key)
  {
    hide Find, KeysUnique, Children;
    var item := MapFindUintKey(key, 7);
    if item.None? {
      return Some("/<0;1>/*");
    }
    var path := SkipTagIf(item.value, TAG_KEYPATH, TAG_KEYPATH_NEW).0;
    var unique := MapKeysAreUniqueUints(path);
    if !unique {
      return None;
    }
    item := MapFindUintKey(path, 1);
    if item.None? {
      return None;
    }
    return Children(item.value);
  }

  method HdkeyToText(value: Cursor, room: nat, base58: Base58) returns (r: Result<string>)
    ensures r == HdkeyText(value, room, base58)
  {
    hide Find, KeysUnique, Network, ReadOrigin, ReadChildren, KeyText;
    var key := SkipTagIf(value, TAG_HDKEY, TAG_HDKEY_NEW).0;
    var unique := MapKeysAreUniqueUints(key);
    if !unique {
      return Err(Unsupported);
    }
    var item := MapFindUintKey(key, 2);
    if item.Some? && GetBool(item.value) != Some(false) {
      return Err(Unsupported);
    }
    item := MapFindUintKey(key, 3);
    if item.None? || GetBytes(item.value, 33).None? {
      return Err(Invalid);
    }
    var pub := GetBytes(item.value, 33).value;
    item := MapFindUintKey(key, 4);
    if item.None? || GetBytes(item.value, 32).None? {
      return Err(Invalid);
    }
    var chain := GetBytes(item.value, 32).value;
    var test := ReadNetworkAt(key);
    if test.None? {
      return Err(Unsupported);
    }
    var origin := ReadOriginAt(key);
    if origin.Err? {
      return Err(origin.error);
    }
    var parent := 0;
    item := MapFindUintKey(key, 8);
    if item.Some? {
      if GetUint32(item.value).None? {
        return Err(Invalid);
      }
      parent := GetUint32(item.value).value;
    }
    var child := ReadChildrenAt(key);
    if child.None? {
      return Err(Unsupported);
    }
    var o := origin.value;
    var xpub := base58(KeyData(test.value, o.depth, if o.depth != 0 then o.path.last else 0, chain, pub, parent));
    if xpub.None? {
      return Err(Invalid);
    }
    var text := KeyText(o, xpub.value, child.value);
    if |text| >= room {
      return Err(TooLarge);
    }
    return Ok(text);
  }

  // The loop over the keys of a multisig.
  method AppendKeys(c: Cursor, n: nat, text0: string, room: nat, base58: Base58) returns (r: Result<string>)
    ensures r == KeysText(c, n, text0, room, base58)
  {
    hide HdkeyText, AdvanceOver;
    var key, text := c, text0;
    for i := 0 to n
      invariant KeysText(key, n - i, text, room, base58) == KeysText(c, n, text0, room, base58)
    {
      var t := Append(text, ",", room);
      if t.Err? {
        return t;
      }
      var k := HdkeyToText(key, room - |t.value|, base58);
      if k.Err? {
        return k;
      }
      text := t.value + k.value;
      var next := AdvanceOverValue(SkipTagIf(key, TAG_HDKEY, TAG_HDKEY_NEW).0);
      if next.None? {
        return Err(Invalid);
      }
      key := next.value;
    }
    return Ok(text);
  }

  method AppendMulti(value: Cursor, text: string, room: nat, base58: Base58) returns (r: Result<string>)
    ensures r == MultiText(value, text, room, base58)
  {
    hide Find, KeysUnique, KeysText;
    var skipped := SkipOneTag(value);
    if skipped.None? || (skipped.value.1 != TAG_MULTI && skipped.value.1 != TAG_SORTEDMULTI) {
      return Err(Unsupported);
    }
    var (map_, tag) := skipped.value;
    var unique := MapKeysAreUniqueUints(map_);
    if !unique {
      return Err(Unsupported);
    }
    var item := MapFindUintKey(map_, 1);
    if item.None? || GetUint32(item.value).None? || GetUint32(item.value).value == 0 {
      return Err(Invalid);
    }
    var threshold := GetUint32(item.value).value;
    item := MapFindUintKey(map_, 2);
    if item.None? || !IsArray(item.value) || item.value.toks[0].len == 0 {
      return Err(Invalid);
    }
    var numKeys := item.value.toks[0].len;
    if numKeys > MAX_SIGNERS {
      return Err(TooMany);
    }
    if threshold > numKeys {
      return Err(Invalid);
    }
    var t := Append(text, (if tag == TAG_SORTEDMULTI then "sortedmulti" else "multi") + ("(" + K.Dec(threshold)), room);
    if t.Err? {
      return t;
    }
    if Enter(item.value).None? {
      return Err(Invalid);
    }
    r := AppendKeys(Enter(item.value).value, numKeys, t.value, room, base58);
  }

  method CloseAll(text0: string, closers0: nat, room: nat) returns (r: Result<string>)
    ensures r == Closed(Ok(text0), closers0, room)
  {
    var text, closers := text0, closers0;
    while closers > 0
      invariant Closed(Ok(text), closers, room) == Closed(Ok(text0), closers0, room)
    {
      var t := Append(text, ")", room);
      closers := closers - 1;
      if t.Err? {
        ClosedErr(t.error, closers, room);
        return t;
      }
      text := t.value;
    }
    return Ok(text);
  }

  lemma {:induction false} ClosedErr(e: Error, closers: nat, room: nat)
    ensures Closed(Err(e), closers, room) == Err(e)
    decreases closers
  {
    if closers > 0 {
      ClosedErr(e, closers - 1, room);
    }
  }

  method ParseCryptoOutput(value: Cursor, room: nat, base58: Base58) returns (r: Result<string>)
    ensures r == OutputText(value, room, base58)
  {
    hide HdkeyText, MultiText, Closed;
    var outer := SkipTagIf(value, TAG_OUTPUT, TAG_OUTPUT_NEW).0;
    var closers: nat, text := 0, "";
    var (inner, sh) := SkipTagIf(outer, TAG_SH, TAG_SH);
    if sh {
      var t := Append(text, "sh(", room);
      if t.Err? {
        return t;
      }
      text := t.value;
      closers := closers + 1;
    }
    var skipped := SkipOneTag(inner);
    if skipped.None? {
      return Err(Unsupported);
    }
    var (content, tag) := skipped.value;
    if tag == TAG_WSH {
      var t := Append(text, "wsh(", room);
      if t.Err? {
        return t;
      }
      r := AppendMulti(content, t.value, room, base58);
      closers := closers + 2;
      if r.Err? {
        ClosedErr(r.error, closers, room);
        return;
      }
      text := r.value;
    } else if tag == TAG_WPKH || tag == TAG_PKH {
      var t := Append(text, if tag == TAG_WPKH then "wpkh(" else "pkh(", room);
      if t.Err? {
        return t;
      }
      closers := closers + 1;
      var key := HdkeyToText(content, room - |t.value|, base58);
      if key.Err? {
        return key;
      }
      text := t.value + key.value;
    } else {
      return Err(Unsupported);
    }
    r := CloseAll(text, closers, room);
  }

  // ---------------------------------------------------------------- brackets

  function Weight(c: char): int {
    if c == '(' then 1 else if c == ')' then -1 else 0
  }

  // Brackets opened and not closed yet; -1 once one was closed too many.
  function Depth(s: string): int {
    if s == [] then 0
    else
      var d := Depth(s[..|s| - 1]);
      if d < 0 then -1 else d + Weight(s[|s| - 1])
  }

  ghost predicate Bare(s: string) {
    forall i :: 0 <= i < |s| ==> Weight(s[i]) == 0
  }

  lemma {:induction false} BareKeeps(a: string, b: string)
    requires Bare(b)
    ensures Depth(a + b) == Depth(a)
    decreases |b|
  {
    if b == [] {
      assert a + b == a;
    } else {
      assert (a + b)[..|a + b| - 1] == a + b[..|b| - 1];
      DepthRange(a);
      BareKeeps(a, b[..|b| - 1]);
    }
  }

  lemma {:induction false} DepthRange(s: string)
    ensures Depth(s) >= -1
  {
  }

  // A word that ends in its only bracket.
  ghost predicate Opens(word: string) {
    word != "" && word[|word| - 1] == '(' && Bare(word[..|word| - 1])
  }

  lemma OpenDeepens(a: string, word: string)
    requires Opens(word) && Depth(a) >= 0
    ensures Depth(a + word) == Depth(a) + 1
  {
    var stem := word[..|word| - 1];
    BareKeeps(a, stem);
    assert (a + word)[..|a + word| - 1] == a + stem;
  }

  lemma CloseRises(a: string)
    requires Depth(a) >= 1
    ensures Depth(a + ")") == Depth(a) - 1
  {
    assert (a + ")")[..|a|] == a;
  }

  lemma {:induction false} ClosedDepth(text: string, closers: nat, room: nat)
    requires Depth(text) == closers && Closed(Ok(text), closers, room).Ok?
    ensures Depth(Closed(Ok(text), closers, room).value) == 0
    decreases closers
  {
    if closers > 0 {
      if Append(text, ")", room).Err? {
        ClosedErr(TooLarge, closers - 1, room);
      } else {
        CloseRises(text);
        ClosedDepth(text + ")", closers - 1, room);
      }
    }
  }
}
