// From a message to what the caller of main/bbqr.c is handed: frames scanned in order and the transfer finished.
module BbqrDelivery {
  import opened Bits
  import opened Options
  import opened BbqrFrames
  import opened BbqrSpec
  import opened BbqrTransfer
  import opened BbqrCollector
  import opened BlockFormat
  import opened LzCodes
  import opened LzParser
  import D = DeflateStream
  import T = DeflateRoundTrip
  import M = MatchCopy

  // The camera's codes, one after the other.
  method Scan(c: Collector, texts: seq<string>)
    requires c.Valid() && c.Abs() == Empty
    modifies c, c.seen, c.data, c.scratch
    ensures c.Valid() && c.Abs() == Run(texts)
    ensures c.data == old(c.data) || c.data == null || fresh(c.data)
    ensures c.scratch == old(c.scratch) || fresh(c.scratch)
  {
    hide Collector.Valid, Step;
    NoneScanned();
    for i := 0 to |texts|
      invariant c.Valid() && c.Abs() == Run(texts[..i])
      invariant c.data == old(c.data) || c.data == null || fresh(c.data)
      invariant c.scratch == old(c.scratch) || fresh(c.scratch)
    {
      var r := c.Collect(texts[i]);
      RunNext(texts, i);
    }
    assert texts[..|texts|] == texts;
  }

  lemma NoneScanned()
    ensures Run([]) == Empty
  {
  }

  lemma RunNext(texts: seq<string>, i: nat)
    requires i < |texts|
    ensures Run(texts[..i + 1]) == Step(Run(texts[..i]), texts[i]).0
  {
    assert texts[..i + 1][..i] == texts[..i];
  }

  // A message an encoder can send in blocks of `len` bytes.
  ghost predicate Messaged(message: seq<Byte>, len: nat, h: Header) {
    && message != [] && 1 <= len <= MAX_FRAME_DECODED && (h.encoding != 'H' ==> len % 5 == 0)
    && (h.encoding == 'H' || h.encoding == '2' || h.encoding == 'Z') && h.fileType in "PTJCUXBRSE"
    && h.numParts == |Blocks(message, len)| <= MAX_PARTS && |Blocks(message, len)[0]| * h.numParts <= MAX_INPUT
  }

  ghost function Texts(message: seq<Byte>, len: nat, h: Header, j: nat): seq<string>
    requires Messaged(message, len, h)
  {
    CycleTexts(Transfer(h, Blocks(message, len)), j, h.numParts + 1)
  }

  // Scanned from any point of the cycle and finished: the message and its file type; a compressed one is inflated.
  method Deliver(c: Collector, texts: seq<string>, ghost message: seq<Byte>, ghost len: nat, ghost h: Header,
                 ghost j: nat)
    returns (r: Option<(seq<Byte>, char)>)
    requires c.Valid() && c.Abs() == Empty && Messaged(message, len, h) && texts == Texts(message, len, h, j)
    modifies c, c.seen, c.data, c.scratch
    ensures h.encoding == 'H' || h.encoding == '2' ==> r == Some((message, h.fileType))
    ensures h.encoding == 'Z' && c.inflate(message).Some? ==> r == Some((c.inflate(message).value, h.fileType))
    ensures h.encoding == 'Z' && c.inflate(message).None? ==> r == None
  {
    hide Collector.Valid, Blocks, CycleTexts, Run, Concat;
    Scan(c, texts);
    MessageArrives(message, len, h, j);
    r := c.Finalise();
  }

  // ---------------------------------------------------------------- compressed by the device's own compressor

  // inflate_raw_deflate(): a clean end, every byte used, some output within the ceiling.
  ghost function InflateRaw(message: seq<Byte>): Option<seq<Byte>> {
    var r := D.ReadStream(D.InputOf(message), MAX_INPUT);
    if r.Read? && M.InReach(r.value) && r.rest.count < 8 && Expand(r.value) != [] then Some(Expand(r.value)) else None
  }

  // What a finished compressor has handed over inflates to its input, unless that is empty or over the ceiling.
  lemma InflatesBack(c: Compressor)
    requires c.Valid() && c.status == Done
    ensures InflateRaw(T.Output(c)) == if 1 <= |c.input| <= 410624 then Some(c.input) else None
  {
    hide Compressor.Valid, Expand, D.ReadStream, M.InReach;
    if |c.input| <= MAX_INPUT {
      T.InflateUndoesCompress(c, MAX_INPUT);
    } else {
      T.TooSmall(c, MAX_INPUT);
    }
  }

  // Compressed in any number of calls, sent as a 'Z' transfer, scanned from any point of the cycle and finished: the
  // compressor's input comes back, if there is any and it is within the ceiling.
  method Received(c: Collector, texts: seq<string>, ghost k: Compressor, ghost len: nat, ghost h: Header, ghost j: nat)
    returns (r: Option<(seq<Byte>, char)>)
    requires k.Valid() && k.status == Done && c.Valid() && c.Abs() == Empty
    requires (forall m :: c.inflate(m) == InflateRaw(m)) && h.encoding == 'Z'
    requires Messaged(T.Output(k), len, h) && texts == Texts(T.Output(k), len, h, j)
    modifies c, c.seen, c.data, c.scratch
    ensures r == if 1 <= |old(k.input)| <= 410624 then Some((old(k.input), h.fileType)) else None
  {
    hide Collector.Valid, Compressor.Valid, Messaged, Texts, InflateRaw;
    InflatesBack(k);
    ghost var message := T.Output(k);
    r := Deliver(c, texts, message, len, h, j);
  }
}
