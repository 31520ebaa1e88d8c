// One camera session shared by two collectors: collect_any_bcur() of main/bcur.c. At most one of BBQr and BC-UR is
// ever partly collected.
module ScanSession {
  import opened Bits
  import opened Options
  import F = BbqrFrames
  import B = BbqrSpec
  import C = BbqrCollector

  // bc-ur's decoder and the gate in front of it, as far as the session looks at them.
  datatype UrDecoder<!D> = UrDecoder(
    blank: D,
    receive: (D, string) -> D,
    failed: D -> bool,
    succeeded: D -> bool,
    count: D -> nat,
    sequenceOk: string -> bool)
  {
    predicate Sane() {
      count(blank) == 0 && !succeeded(blank) && !failed(blank)
    }
  }

  function Lower(c: char): char {
    if 'A' <= c <= 'Z' then c - 'A' + 'a' else c
  }

  // 'ur:' in either case, and something after it
  predicate IsUr(data: string) {
    |data| >= 4 && Lower(data[0]) == 'u' && Lower(data[1]) == 'r' && Lower(data[2]) == ':'
  }

  datatype State<D> = State(bbqr: B.Collection, ur: D)

  // What a frame leads to, and whether it ends the scan.
  ghost function Step<D>(s: State<D>, data: string, enabled: bool, lib: UrDecoder<D>): (State<D>, bool) {
    if enabled && F.IsHeader(data) then
      if lib.count(s.ur) > 0 then (s, false)
      else
        var (c, r) := B.Step(s.bbqr, data);
        (s.(bbqr := c), r == B.Complete)
    else if s.bbqr.Running? then (s, false)
    else if !IsUr(data) then (s, true)
    else if !lib.sequenceOk(data) then (s, false)
    else
      var d := lib.receive(s.ur, data);
      if lib.failed(d) then (s.(ur := lib.blank), false) else (s.(ur := d), lib.succeeded(d))
  }

  // At most one transfer has been begun.
  ghost predicate AtMostOne<D>(s: State<D>, lib: UrDecoder<D>) {
    s.bbqr.Running? ==> lib.count(s.ur) == 0
  }

  lemma StepKeepsOne<D>(s: State<D>, data: string, enabled: bool, lib: UrDecoder<D>)
    requires AtMostOne(s, lib) && lib.Sane()
    ensures AtMostOne(Step(s, data, enabled, lib).0, lib)
  {
    hide B.Step;
  }

  ghost function Run<D>(frames: seq<string>, enabled: bool, lib: UrDecoder<D>): State<D> {
    if frames == [] then State(B.Empty, lib.blank)
    else Step(Run(frames[..|frames| - 1], enabled, lib), frames[|frames| - 1], enabled, lib).0
  }

  // Whatever the camera sees, in whatever order.
  lemma {:induction false} NeverBoth<D>(frames: seq<string>, enabled: bool, lib: UrDecoder<D>)
    requires lib.Sane()
    ensures AtMostOne(Run(frames, enabled, lib), lib) && Run(frames, enabled, lib).bbqr.Sound()
    ensures !enabled ==> Run(frames, enabled, lib).bbqr.Empty?
  {
    hide B.Step, B.Collection.Sound;
    if frames == [] {
      EmptySound();
    } else {
      var most, last := frames[..|frames| - 1], frames[|frames| - 1];
      NeverBoth(most, enabled, lib);
      StepKeepsOne(Run(most, enabled, lib), last, enabled, lib);
      B.StepSound(Run(most, enabled, lib).bbqr, last);
    }
  }

  lemma EmptySound()
    ensures B.Collection.Empty.Sound()
  {
  }

  // Once a BBQr transfer has begun, no other frame ends the scan: what ends it is the whole transfer.
  lemma EndsWhole<D>(frames: seq<string>, data: string, enabled: bool, lib: UrDecoder<D>)
    requires lib.Sane() && Run(frames, enabled, lib).bbqr.Running?
    requires Step(Run(frames, enabled, lib), data, enabled, lib).1
    ensures Run(frames + [data], enabled, lib).bbqr.Full() && enabled && F.IsHeader(data)
  {
    hide B.Step;
    NeverBoth(frames, enabled, lib);
    assert (frames + [data])[..|frames|] == frames;
    B.StepSound(Run(frames, enabled, lib).bbqr, data);
  }

  class Session<D> {
    const bbqr: C.Collector
    const enabled: bool
    const lib: UrDecoder<D>
    var ur: D

    ghost predicate Valid()
      reads this, bbqr, bbqr.seen, bbqr.data
    {
      bbqr.Valid() && lib.Sane() && AtMostOne(Abs(), lib)
    }

    ghost function Abs(): State<D>
      reads this, bbqr
    {
      State(bbqr.Abs(), ur)
    }

    // One decoded QR code.
    method Collect(data: string) returns (done: bool)
      requires Valid() && data != []
      modifies this`ur, bbqr, bbqr.seen, bbqr.data, bbqr.scratch
      ensures Valid() && (Abs(), done) == Step(old(Abs()), data, enabled, lib)
      ensures bbqr.data == old(bbqr.data) || bbqr.data == null || fresh(bbqr.data)
      ensures bbqr.scratch == old(bbqr.scratch) || fresh(bbqr.scratch)
    {
      hide C.Collector.Valid, B.Step;
      StepKeepsOne(Abs(), data, enabled, lib);
      if enabled && F.IsHeader(data) {
        if lib.count(ur) > 0 {
          return false;
        }
        var r := bbqr.Collect(data);
        return r == B.Complete;
      }
      if bbqr.numParts > 0 {
        return false;
      }
      if !IsUr(data) {
        return true;
      }
      if !lib.sequenceOk(data) {
        return false;
      }
      ur := lib.receive(ur, data);
      if lib.failed(ur) {
        ur := lib.blank;
        return false;
      }
      return lib.succeeded(ur);
    }

    constructor (inflate: seq<Byte> -> Option<seq<Byte>>, enabled: bool, lib: UrDecoder<D>)
      requires lib.Sane()
      ensures Valid() && Abs() == State(B.Empty, lib.blank) && this.enabled == enabled && this.lib == lib
    {
      bbqr := new C.Collector(inflate);
      this.enabled, this.lib, ur := enabled, lib, lib.blank;
    }
  }
}
