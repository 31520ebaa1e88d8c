// When a scan ends (collect_any_bcur() and bcur_scan_qr() of main/bcur.c), told from the codes seen alone: which of
// them reach the BBQr collector, which the BC-UR decoder, and which one ends the scan.
module ScanRuns {
  import opened Options
  import opened ScanSession
  import F = BbqrFrames
  import B = BbqrSpec
  import L = BbqrLaws

  // ---------------------------------------------------------------- what each of the two has heard

  // The decoder after these parts, started anew after every failure.
  ghost function Fed<D>(parts: seq<string>, lib: UrDecoder<D>): D {
    if parts == [] then lib.blank
    else
      var d := lib.receive(Fed(parts[..|parts| - 1], lib), parts[|parts| - 1]);
      if lib.failed(d) then lib.blank else d
  }

  predicate BbqrText(data: string) {
    |data| >= 8 && data[0] == 'B' && data[1] == '$'
  }

  predicate UrText(data: string) {
    |data| >= 4 && (data[0] == 'u' || data[0] == 'U') && (data[1] == 'r' || data[1] == 'R') && data[2] == ':'
  }

  datatype Heard = Heard(bbqr: seq<string>, ur: seq<string>)

  // A BBQr frame is heard while no BC-UR part has been received, a BC-UR part that passes the gate while no BBQr
  // collection runs.
  ghost function Hear<D>(frames: seq<string>, enabled: bool, lib: UrDecoder<D>): Heard {
    if frames == [] then Heard([], [])
    else
      var h, data := Hear(frames[..|frames| - 1], enabled, lib), frames[|frames| - 1];
      if enabled && BbqrText(data) then
        if lib.count(Fed(h.ur, lib)) == 0 then h.(bbqr := h.bbqr + [data]) else h
      else if UrText(data) && lib.sequenceOk(data) && !B.Run(h.bbqr).Running? then h.(ur := h.ur + [data])
      else h
  }

  lemma FedNext<D>(parts: seq<string>, data: string, lib: UrDecoder<D>)
    ensures var d := lib.receive(Fed(parts, lib), data);
            Fed(parts + [data], lib) == if lib.failed(d) then lib.blank else d
  {
    assert (parts + [data])[..|parts|] == parts;
  }

  lemma KindsAre(data: string)
    ensures F.IsHeader(data) == BbqrText(data) && IsUr(data) == UrText(data) && !(BbqrText(data) && UrText(data))
  {
  }

  // Whatever the camera sees, in whatever order: the state is that of the collector and of the decoder after what each
  // of them has heard.
  lemma {:induction false} StateIsHeard<D>(frames: seq<string>, enabled: bool, lib: UrDecoder<D>)
    ensures var h := Hear(frames, enabled, lib);
            Run(frames, enabled, lib) == State(B.Run(h.bbqr), Fed(h.ur, lib))
  {
    if frames == [] {
      NothingHeard(lib);
    } else {
      var last := |frames| - 1;
      StateIsHeard(frames[..last], enabled, lib);
      var h := Hear(frames[..last], enabled, lib);
      KindsAre(frames[last]);
      hide B.Step, B.Run, F.IsHeader, IsUr, BbqrText, UrText;
      L.Extended(h.bbqr, frames[last]);
      FedNext(h.ur, frames[last], lib);
      hide Fed;
    }
  }

  lemma NothingHeard<D>(lib: UrDecoder<D>)
    ensures B.Run([]) == B.Empty && Fed([], lib) == lib.blank
  {
  }

  // ---------------------------------------------------------------- the code that ends the scan

  // With what has been heard, this code ends the scan: a BBQr frame that is taken and leaves no part missing; with no
  // BBQr collection running, a BC-UR part after which the decoder has succeeded, or a code of neither kind.
  ghost predicate Ends<D>(h: Heard, data: string, enabled: bool, lib: UrDecoder<D>) {
    if enabled && BbqrText(data) then
      var c, f := B.Run(h.bbqr + [data]), F.ParseFrame(data);
      lib.count(Fed(h.ur, lib)) == 0 && f.Some? && L.HeldBy(c, f.value) && |c.parts| == c.header.numParts
    else
      && !B.Run(h.bbqr).Running?
      && (UrText(data) ==>
            && lib.sequenceOk(data) && !lib.failed(lib.receive(Fed(h.ur, lib), data))
            && lib.succeeded(lib.receive(Fed(h.ur, lib), data)))
  }

  lemma EndsExactly<D>(frames: seq<string>, data: string, enabled: bool, lib: UrDecoder<D>)
    ensures Step(Run(frames, enabled, lib), data, enabled, lib).1 <==>
            Ends(Hear(frames, enabled, lib), data, enabled, lib)
  {
    var h := Hear(frames, enabled, lib);
    StateIsHeard(frames, enabled, lib);
    KindsAre(data);
    L.AnswerTells(h.bbqr, data);
    hide B.Step, B.Run, F.ParseFrame, F.IsHeader, IsUr, BbqrText, UrText, Fed, Hear, L.HeldBy, Run;
  }

  // ---------------------------------------------------------------- BC-UR alone

  ghost predicate AllParts<D>(parts: seq<string>, lib: UrDecoder<D>) {
    forall i :: 0 <= i < |parts| ==> UrText(parts[i]) && lib.sequenceOk(parts[i])
  }

  lemma {:induction false} OnlyPartsHeard<D>(parts: seq<string>, enabled: bool, lib: UrDecoder<D>)
    requires AllParts(parts, lib)
    ensures Hear(parts, enabled, lib) == Heard([], parts) && !B.Run([]).Running?
  {
    if parts != [] {
      var last := |parts| - 1;
      OnlyPartsHeard(parts[..last], enabled, lib);
      KindsAre(parts[last]);
      assert parts[..last] + [parts[last]] == parts;
    }
  }

  // Of a run of BC-UR parts that pass the gate, exactly that one ends the scan after which the decoder fed with all of
  // them, and started anew after failures, has succeeded; a code of neither kind ends it at once.
  lemma PartsEnd<D>(parts: seq<string>, data: string, enabled: bool, lib: UrDecoder<D>)
    requires AllParts(parts, lib)
    ensures var ends, d := Step(Run(parts, enabled, lib), data, enabled, lib).1, lib.receive(Fed(parts, lib), data);
            && (UrText(data) && lib.sequenceOk(data) ==> (ends <==> !lib.failed(d) && lib.succeeded(d)))
            && (UrText(data) && !lib.sequenceOk(data) ==> !ends)
            && (!UrText(data) && !BbqrText(data) ==> ends)
  {
    hide Step, Run, Fed, UrText, BbqrText, F.ParseFrame;
    KindsAre(data);
    OnlyPartsHeard(parts, enabled, lib);
    EndsExactly(parts, data, enabled, lib);
  }

  // A code of neither kind ends the scan exactly when no BBQr collection is running.
  lemma OthersEnd<D>(frames: seq<string>, data: string, enabled: bool, lib: UrDecoder<D>)
    requires !UrText(data) && !BbqrText(data)
    ensures Step(Run(frames, enabled, lib), data, enabled, lib).1 <==> Run(frames, enabled, lib).bbqr.Empty?
  {
    hide Step, Run, Fed, UrText, BbqrText, F.ParseFrame, Hear;
    StateIsHeard(frames, enabled, lib);
    EndsExactly(frames, data, enabled, lib);
  }

  // ---------------------------------------------------------------- the camera's loop

  // Codes are handed over until one of them ends the scan: the first that does.
  method Watch<D>(s: Session<D>, frames: seq<string>) returns (n: nat, done: bool)
    requires s.Valid() && s.Abs() == State(B.Empty, s.lib.blank) && forall i :: 0 <= i < |frames| ==> frames[i] != []
    modifies s`ur, s.bbqr, s.bbqr.seen, s.bbqr.data, s.bbqr.scratch
    ensures s.Valid() && n <= |frames| && s.Abs() == Run(frames[..n], s.enabled, s.lib)
    ensures if done then n >= 1 && Ends(Hear(frames[..n - 1], s.enabled, s.lib), frames[n - 1], s.enabled, s.lib)
            else n == |frames|
    ensures forall k :: 0 <= k < (if done then n - 1 else n) ==>
              !Ends(Hear(frames[..k], s.enabled, s.lib), frames[k], s.enabled, s.lib)
  {
    hide Session.Valid, Step, Hear, Ends;
    NothingHeard(s.lib);
    n, done := 0, false;
    while n < |frames| && !done
      invariant s.Valid() && n <= |frames| && s.Abs() == Run(frames[..n], s.enabled, s.lib)
      invariant done ==> n >= 1 && Ends(Hear(frames[..n - 1], s.enabled, s.lib), frames[n - 1], s.enabled, s.lib)
      invariant forall k :: 0 <= k < (if done then n - 1 else n) ==>
                  !Ends(Hear(frames[..k], s.enabled, s.lib), frames[k], s.enabled, s.lib)
      invariant s.bbqr.data == old(s.bbqr.data) || s.bbqr.data == null || fresh(s.bbqr.data)
      invariant s.bbqr.scratch == old(s.bbqr.scratch) || fresh(s.bbqr.scratch)
    {
      EndsExactly(frames[..n], frames[n], s.enabled, s.lib);
      RunOn(frames, n, s.enabled, s.lib);
      done := s.Collect(frames[n]);
      n := n + 1;
    }
  }

  lemma RunOn<D>(frames: seq<string>, n: nat, enabled: bool, lib: UrDecoder<D>)
    requires n < |frames|
    ensures Run(frames[..n + 1], enabled, lib) == Step(Run(frames[..n], enabled, lib), frames[n], enabled, lib).0
    ensures Run(frames[..0], enabled, lib) == State(B.Empty, lib.blank)
  {
    assert frames[..n + 1][..n] == frames[..n];
  }
}
