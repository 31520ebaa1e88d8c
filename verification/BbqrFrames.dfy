// One BBQr frame: its eight-character header and its payload (main/bbqr.c), read and written.
module BbqrFrames {
  import opened Bits
  import opened Options
  import B32 = Base32

  const HEADER_LEN := 8
  const MAX_PARTS := 1295
  const MAX_FRAME_DECODED := 635    // (1024 - 8) / 8 * 5

  datatype Header = Header(encoding: char, fileType: char, numParts: nat)
  datatype Frame = Frame(header: Header, index: nat, payload: seq<Byte>) {
    predicate Final() {
      index + 1 == header.numParts
    }
  }

  predicate IsKnownFileType(c: char) {
    c in "PTJCUXBRSE"
  }

  predicate IsKnownEncoding(c: char) {
    c == 'H' || c == '2' || c == 'Z'
  }

  // ---------------------------------------------------------------- base 36

  function Base36Digit(c: char): (d: Option<nat>)
    ensures d.Some? ==> d.value < 36
  {
    if '0' <= c <= '9' then Some(c as nat - '0' as nat)
    else if 'A' <= c <= 'Z' then Some(c as nat - 'A' as nat + 10)
    else None
  }

  function Base36Pair(s: string): (v: Option<nat>)
    requires |s| == 2
    ensures v.Some? ==> v.value <= MAX_PARTS
  {
    var a, b := Base36Digit(s[0]), Base36Digit(s[1]);
    if a.Some? && b.Some? then Some(36 * a.value + b.value) else None
  }

  method ParseBase36Pair(digits: string) returns (value: Option<nat>)
    requires |digits| == 2
    ensures value == Base36Pair(digits)
  {
    var result: nat := 0;
    for i := 0 to 2
      invariant i == 0 ==> result == 0
      invariant i >= 1 ==> Base36Digit(digits[0]) == Some(if i == 1 then result else result / 36)
      invariant i == 2 ==> Base36Digit(digits[1]) == Some(result % 36)
    {
      var c := digits[i];
      var digit: nat;
      if '0' <= c <= '9' {
        digit := c as nat - '0' as nat;
      } else if 'A' <= c <= 'Z' {
        digit := c as nat - 'A' as nat + 10;
      } else {
        return None;
      }
      result := result * 36 + digit;
    }
    return Some(result);
  }

  function Base36Char(d: nat): (c: char)
    requires d < 36
    ensures Base36Digit(c) == Some(d)
  {
    if d < 10 then '0' + d as char else 'A' + (d - 10) as char
  }

  function Base36(v: nat): (s: string)
    requires v <= MAX_PARTS
    ensures |s| == 2 && Base36Pair(s) == Some(v)
  {
    [Base36Char(v / 36), Base36Char(v % 36)]
  }

  // ---------------------------------------------------------------- payloads

  predicate StrictDigit(c: char) {
    'A' <= c <= 'Z' || '2' <= c <= '7'
  }

  ghost predicate IsBbqrBase32(s: string) {
    && |s| % 8 !in {1, 3, 6}
    && forall i :: 0 <= i < |s| ==> StrictDigit(s[i])
  }

  method CheckBase32(payload: string) returns (ok: bool)
    ensures ok == IsBbqrBase32(payload)
  {
    var tail := |payload| % 8;
    if tail != 0 && tail != 2 && tail != 4 && tail != 5 && tail != 7 {
      return false;
    }
    for i := 0 to |payload|
      invariant forall k :: 0 <= k < i ==> StrictDigit(payload[k])
    {
      var c := payload[i];
      if !('A' <= c <= 'Z' || '2' <= c <= '7') {
        return false;
      }
    }
    return true;
  }

  predicate IsHex(c: char) {
    '0' <= c <= '9' || 'a' <= c <= 'f' || 'A' <= c <= 'F'
  }

  function HexValue(c: char): (d: nat)
    requires IsHex(c)
    ensures d < 16
  {
    if '0' <= c <= '9' then c as nat - '0' as nat
    else if 'a' <= c <= 'f' then c as nat - 'a' as nat + 10
    else c as nat - 'A' as nat + 10
  }

  // Two hex digits a byte, either case; None on any other character or an odd length.
  function HexToBytes(s: string): (r: Option<seq<Byte>>)
    ensures r.Some? ==> |r.value| * 2 == |s|
  {
    if s == [] then Some([])
    else if |s| == 1 || !IsHex(s[0]) || !IsHex(s[1]) then None
    else
      match HexToBytes(s[2..])
      case None => None
      case Some(rest) => Some([16 * HexValue(s[0]) + HexValue(s[1])] + rest)
  }

  // What a payload decodes to; nothing for anything malformed or over the cap.
  ghost function DecodePayload(encoding: char, payload: string, isFinal: bool, cap: nat): (r: seq<Byte>)
    ensures |r| <= cap
  {
    if payload == [] then []
    else if encoding == 'H' then
      if |payload| % 2 != 0 || |payload| / 2 > cap || HexToBytes(payload).None? then []
      else HexToBytes(payload).value
    else if (!isFinal && |payload| % 8 != 0) || !IsBbqrBase32(payload) then []
    else B32.Decoded(payload, cap)
  }

  method DecodeFramePayload(encoding: char, payload: string, isFinal: bool, out: array<Byte>) returns (n: nat)
    requires out.Length > 0
    modifies out
    ensures n <= out.Length && out[..n] == DecodePayload(encoding, payload, isFinal, out.Length)
  {
    if payload == [] {
      return 0;
    }
    if encoding == 'H' {
      if |payload| % 2 != 0 || |payload| / 2 > out.Length {
        return 0;
      }
      match HexToBytes(payload)
      case None => return 0;
      case Some(bytes) =>
        forall i | 0 <= i < |bytes| {
          out[i] := bytes[i];
        }
        return |bytes|;
    }
    if !isFinal && |payload| % 8 != 0 {
      return 0;
    }
    var ok := CheckBase32(payload);
    if !ok {
      return 0;
    }
    n := B32.Base32ToBin(payload, out);
  }

  // ---------------------------------------------------------------- whole frames

  predicate IsHeader(data: string) {
    |data| >= HEADER_LEN && data[0] == 'B' && data[1] == '$'
  }

  // The header fields and the payload text, before any decoding.
  function ParseHeader(data: string): (r: Option<(Header, nat)>)
    ensures r.Some? ==> |data| >= HEADER_LEN && r.value.1 < r.value.0.numParts <= MAX_PARTS
    ensures r.Some? ==> IsKnownEncoding(r.value.0.encoding) && IsKnownFileType(r.value.0.fileType)
  {
    if !IsHeader(data) || !IsKnownEncoding(data[2]) || !IsKnownFileType(data[3]) then None
    else
      match (Base36Pair(data[4..6]), Base36Pair(data[6..8]))
      case (Some(n), Some(i)) => if n == 0 || i >= n then None else Some((Header(data[2], data[3], n), i))
      case _ => None
  }

  method ReadHeader(data: string) returns (r: Option<(Header, nat)>)
    ensures r == ParseHeader(data)
  {
    if !IsHeader(data) || !IsKnownEncoding(data[2]) || !IsKnownFileType(data[3]) {
      return None;
    }
    var numParts := ParseBase36Pair(data[4..6]);
    var index := ParseBase36Pair(data[6..8]);
    if numParts.None? || index.None? || numParts.value == 0 || index.value >= numParts.value {
      return None;
    }
    return Some((Header(data[2], data[3], numParts.value), index.value));
  }

  // A frame that can be taken at all; the collection in progress plays no part in this.
  ghost function ParseFrame(data: string): (r: Option<Frame>)
    ensures r.Some? ==> r.value.index < r.value.header.numParts <= MAX_PARTS
    ensures r.Some? ==> 1 <= |r.value.payload| <= MAX_FRAME_DECODED
  {
    match ParseHeader(data)
    case None => None
    case Some((h, i)) =>
      var p := DecodePayload(h.encoding, data[HEADER_LEN..], i + 1 == h.numParts, MAX_FRAME_DECODED);
      if p == [] then None else Some(Frame(h, i, p))
  }

  // ---------------------------------------------------------------- writing

  function HexChar(d: nat): (c: char)
    requires d < 16
    ensures IsHex(c) && HexValue(c) == d
  {
    if d < 10 then '0' + d as char else 'A' + (d - 10) as char
  }

  function HexText(b: seq<Byte>): (s: string)
    ensures |s| == 2 * |b|
  {
    if b == [] then [] else [HexChar(b[0] / 16), HexChar(b[0] % 16)] + HexText(b[1..])
  }

  lemma {:induction false} HexReadsBack(b: seq<Byte>)
    ensures HexToBytes(HexText(b)) == Some(b)
  {
    if b != [] {
      HexReadsBack(b[1..]);
      assert HexText(b)[2..] == HexText(b[1..]);
      assert [b[0]] + b[1..] == b;
    }
  }

  // A frame an encoder may send: a non-final base32 payload ends on a whole group.
  predicate Sendable(f: Frame) {
    && IsKnownEncoding(f.header.encoding) && IsKnownFileType(f.header.fileType)
    && f.index < f.header.numParts <= MAX_PARTS && 1 <= |f.payload| <= MAX_FRAME_DECODED
    && (f.header.encoding != 'H' && !f.Final() ==> |f.payload| % 5 == 0)
  }

  function Body(encoding: char, b: seq<Byte>): string {
    if encoding == 'H' then HexText(b) else B32.Encode(b)
  }

  function FrameText(f: Frame): string
    requires f.header.numParts <= MAX_PARTS && f.index <= MAX_PARTS
  {
    ['B', '$', f.header.encoding, f.header.fileType] + Base36(f.header.numParts) + Base36(f.index)
    + Body(f.header.encoding, f.payload)
  }

  lemma Base32Accepted(b: seq<Byte>, isFinal: bool)
    requires 1 <= |b| <= MAX_FRAME_DECODED && (!isFinal ==> |b| % 5 == 0)
    ensures DecodePayload('2', B32.Encode(b), isFinal, MAX_FRAME_DECODED) == b
  {
    hide B32.Decoded, B32.Encode, B32.IsDigit, B32.AllDigits;
    B32.EncodeDecodes(b, MAX_FRAME_DECODED);
    EncodedLength(|b|);
  }

  lemma EncodedLength(n: nat)
    ensures (8 * n + 4) / 5 % 8 !in {1, 3, 6} && (n % 5 == 0 ==> (8 * n + 4) / 5 % 8 == 0)
    ensures n >= 1 ==> (8 * n + 4) / 5 >= 1
  {
    var q, r := n / 5, n % 5;
    assert (8 * n + 4) / 5 == 8 * q + (8 * r + 4) / 5;
  }

  // Every sendable frame is read back as itself.
  lemma FrameReadsBack(f: Frame)
    requires Sendable(f)
    ensures ParseFrame(FrameText(f)) == Some(f)
  {
    hide DecodePayload, HexText, B32.Encode, Base36, Base36Pair;
    var data, h := FrameText(f), f.header;
    assert data[4..6] == Base36(h.numParts) && data[6..8] == Base36(f.index);
    assert data[HEADER_LEN..] == Body(h.encoding, f.payload);
    BodyReadsBack(h.encoding, f.payload, f.Final());
  }

  lemma BodyReadsBack(encoding: char, b: seq<Byte>, isFinal: bool)
    requires IsKnownEncoding(encoding) && 1 <= |b| <= MAX_FRAME_DECODED
    requires encoding != 'H' && !isFinal ==> |b| % 5 == 0
    ensures DecodePayload(encoding, Body(encoding, b), isFinal, MAX_FRAME_DECODED) == b
  {
    hide HexToBytes, HexText, B32.Encode, B32.Decoded;
    if encoding == 'H' {
      HexReadsBack(b);
    } else {
      Base32Accepted(b, isFinal);
    }
  }
}
