// What single frames do to a BBQr collection (main/bbqr.c), in terms of the frames alone, and which texts are frames.
module BbqrLaws {
  import opened Bits
  import opened Options
  import opened BbqrFrames
  import opened BbqrSpec
  import B32 = Base32

  // ---------------------------------------------------------------- what a frame does

  // The collection holds this frame's part, under its header.
  predicate HeldBy(c: Collection, f: Frame) {
    c.Running? && c.header == f.header && f.index in c.parts && c.parts[f.index] == f.payload
  }

  // A frame is refused exactly when its part is not held afterwards, and completes exactly when all parts are.
  lemma AnswerTells(frames: seq<string>, data: string)
    ensures var c, r := Run(frames + [data]), Step(Run(frames), data).1;
            && (r != Rejected <==> ParseFrame(data).Some? && HeldBy(c, ParseFrame(data).value))
            && (r == Complete <==> r != Rejected && |c.parts| == c.header.numParts)
  {
    hide ParseFrame;
    Extended(frames, data);
  }

  lemma Extended(frames: seq<string>, data: string)
    ensures Run(frames + [data]) == Step(Run(frames), data).0
  {
    assert (frames + [data])[..|frames|] == frames;
  }

  // What the first frame of a collection has to be.
  predicate CanStart(f: Frame) {
    (f.index + 1 < f.header.numParts || f.header.numParts == 1) && |f.payload| * f.header.numParts <= 410624
  }

  // A frame on its own: it opens a collection with its part in it, and fixes the block length, or nothing happens.
  lemma FirstFrame(data: string)
    ensures Run([data]) ==
            if ParseFrame(data).Some? && CanStart(ParseFrame(data).value)
            then var f := ParseFrame(data).value; Running(f.header, |f.payload|, map[f.index := f.payload])
            else Empty
  {
    hide ParseFrame;
    Extended([], data);
    assert [] + [data] == [data] && Run([]) == Empty;
  }

  // While a collection runs, a frame of its header changes it in one of three ways. A part held already changes
  // nothing; the same part with other content makes everything before it forgotten; a part not held is added if it
  // is as long as the others, or is the last one and no longer. Every other frame changes nothing.
  lemma NextFrame(frames: seq<string>, data: string)
    requires Run(frames).Running?
    ensures var c, f := Run(frames), ParseFrame(data);
            && (f.None? || f.value.header != c.header ==> Run(frames + [data]) == c)
            && (f.Some? && f.value.header == c.header ==>
                  var i, p := f.value.index, f.value.payload;
                  Run(frames + [data]) ==
                  if i in c.parts then if c.parts[i] == p then c else Run([data])
                  else if (if i + 1 == c.header.numParts then |p| <= c.blockLen else |p| == c.blockLen)
                  then c.(parts := c.parts[i := p])
                  else c)
  {
    hide ParseFrame;
    Extended(frames, data);
    FirstFrame(data);
    Parsed(data);
  }

  lemma Parsed(data: string)
    ensures ParseFrame(data).Some? ==>
              var f := ParseFrame(data).value;
              f.index < f.header.numParts <= MAX_PARTS && 1 <= |f.payload| <= MAX_FRAME_DECODED
  {
    hide ParseHeader, DecodePayload;
  }

  // ---------------------------------------------------------------- the alphabets

  lemma Base36Alphabet(d: nat)
    requires d < 36
    ensures Base36Digit("0123456789ABCDEFGHIJKLMNOPQRSTUVWXYZ"[d]) == Some(d)
  {
  }

  lemma Base32Alphabet(d: nat)
    requires d < 32
    ensures var c := "ABCDEFGHIJKLMNOPQRSTUVWXYZ234567"[d]; StrictDigit(c) && B32.IsDigit(c) && B32.Digit(c) == d
  {
  }

  lemma HexAlphabet(d: nat)
    requires d < 16
    ensures var c := "0123456789ABCDEF"[d]; IsHex(c) && HexValue(c) == d
    ensures var c := "0123456789abcdef"[d]; IsHex(c) && HexValue(c) == d
  {
  }

  // ---------------------------------------------------------------- which texts are frames

  lemma {:induction false} HexOnly(s: string)
    requires HexToBytes(s).Some?
    ensures forall i :: 0 <= i < |s| ==> IsHex(s[i])
  {
    if s != [] {
      HexOnly(s[2..]);
      forall i | 2 <= i < |s| ensures IsHex(s[i]) {
        assert s[i] == s[2..][i - 2];
      }
    }
  }

  // A run of base32 characters that ends where bytes do is as long as what an encoder writes for those bytes.
  lemma DigitsForBytes(n: nat)
    requires n % 8 !in {1, 3, 6}
    ensures (8 * (5 * n / 8) + 4) / 5 == n && (n % 8 == 0 ==> 5 * n / 8 % 5 == 0)
  {
    var q, r := n / 8, n % 8;
    assert n == 8 * q + r && 5 * n / 8 == 5 * q + 5 * r / 8;
  }

  lemma PayloadForm(encoding: char, payload: string, isFinal: bool)
    requires IsKnownEncoding(encoding) && DecodePayload(encoding, payload, isFinal, MAX_FRAME_DECODED) != []
    ensures var p := DecodePayload(encoding, payload, isFinal, MAX_FRAME_DECODED);
            && |payload| == |Body(encoding, p)| && (encoding != 'H' && !isFinal ==> |p| % 5 == 0)
            && forall i :: 0 <= i < |payload| ==> if encoding == 'H' then IsHex(payload[i]) else StrictDigit(payload[i])
  {
    hide HexToBytes, HexText, B32.Bytes, B32.Encode, B32.Meaningful;
    if encoding == 'H' {
      HexOnly(payload);
    } else {
      var m := B32.Meaningful(payload);
      assert |m| < |payload| ==> StrictDigit(payload[|m|]);
      DigitsForBytes(|payload|);
    }
  }

  // Every text that is taken has the length, the characters and the block size of one an encoder may send.
  lemma AcceptedForm(data: string)
    requires ParseFrame(data).Some?
    ensures var f := ParseFrame(data).value;
            && Sendable(f) && |data| == |FrameText(f)|
            && data[..4] == ['B', '$', f.header.encoding, f.header.fileType]
            && (f.header.encoding == 'H' || f.header.encoding == '2' || f.header.encoding == 'Z')
            && f.header.fileType in "PTJCUXBRSE"
            && forall i :: 8 <= i < |data| ==> if f.header.encoding == 'H' then IsHex(data[i]) else StrictDigit(data[i])
  {
    hide DecodePayload, Base36Pair, Body, IsHex, StrictDigit, Base36;
    var f := ParseFrame(data).value;
    Parsed(data);
    PayloadForm(f.header.encoding, data[HEADER_LEN..], f.Final());
    forall i | 8 <= i < |data|
      ensures if f.header.encoding == 'H' then IsHex(data[i]) else StrictDigit(data[i])
    {
      assert data[i] == data[HEADER_LEN..][i - 8];
    }
  }

  // ---------------------------------------------------------------- frames letter by letter

  // One base32 frame: "abc", whole.
  lemma Base32Frame()
    ensures ParseFrame("B$2U0100MFRGG") == Some(Frame(Header('2', 'U', 1), 0, [97, 98, 99]))
  {
    var data := "B$2U0100MFRGG";
    assert data[4..6] == "01" && data[6..8] == "00" && data[HEADER_LEN..] == "MFRGG";
    Base32Payload();
    hide DecodePayload;
  }

  lemma Base32Payload()
    ensures DecodePayload('2', "MFRGG", true, MAX_FRAME_DECODED) == [97, 98, 99]
  {
    var s := "MFRGG";
    assert B32.AllDigits(s) && IsBbqrBase32(s);
    NumberOf();
    MeaningfulPlain(s);
    hide B32.Value, B32.Meaningful, B32.BytesOf, Shr;
  }

  lemma NumberOf()
    ensures B32.AllDigits("MFRGG") && B32.Value("MFRGG") == 12764358 && Shr(12764358, 1) == 6382179
    ensures B32.BytesOf(6382179, 3) == [97, 98, 99]
  {
    var s := "MFRGG";
    assert s[..1] == "M" && s[..2] == "MF" && s[..3] == "MFR" && s[..4] == "MFRG";
    assert s[..2][..1] == "M" && s[..3][..2] == "MF" && s[..4][..3] == "MFR";
    assert B32.Value("M") == 12;
    assert B32.Value("MF") == 389;
    assert B32.Value("MFR") == 12465;
    assert B32.Value("MFRG") == 398886;
    assert B32.BytesOf(97, 1) == [97];
    assert B32.BytesOf(24930, 2) == [97, 98];
  }

  lemma {:induction false} MeaningfulPlain(s: string)
    requires forall i :: 0 <= i < |s| ==> StrictDigit(s[i])
    ensures B32.Meaningful(s) == s
  {
    if s != [] {
      MeaningfulPlain(s[1..]);
      assert [s[0]] + s[1..] == s;
    }
  }

  // The second of eleven hex frames, in either case.
  lemma HexFrame()
    ensures ParseFrame("B$HP0B01dEadBEef") == Some(Frame(Header('H', 'P', 11), 1, [0xDE, 0xAD, 0xBE, 0xEF]))
  {
    var data := "B$HP0B01dEadBEef";
    assert data[4..6] == "0B" && data[6..8] == "01" && data[HEADER_LEN..] == "dEadBEef";
    HexPayload();
    hide DecodePayload;
  }

  lemma HexPair(a: char, b: char, rest: string)
    requires IsHex(a) && IsHex(b) && HexToBytes(rest).Some?
    ensures HexToBytes([a, b] + rest) == Some([16 * HexValue(a) + HexValue(b)] + HexToBytes(rest).value)
  {
    assert ([a, b] + rest)[2..] == rest;
  }

  lemma HexPayload()
    ensures DecodePayload('H', "dEadBEef", false, MAX_FRAME_DECODED) == [0xDE, 0xAD, 0xBE, 0xEF]
  {
    HexPair('e', 'f', "");
    HexPair('B', 'E', "ef");
    HexPair('a', 'd', "BEef");
    HexPair('d', 'E', "adBEef");
    assert ['e', 'f'] + "" == "ef" && ['B', 'E'] + "ef" == "BEef" && ['a', 'd'] + "BEef" == "adBEef";
    assert ['d', 'E'] + "adBEef" == "dEadBEef";
  }
}
