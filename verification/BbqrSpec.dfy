// What the BBQr collector of main/bbqr.c means, frame by frame and over whole runs: a map from part
// number to payload under one header, restarted when a part comes back with other content.
module BbqrSpec {
  import opened Bits
  import opened Options
  import opened BbqrFrames

  const MAX_INPUT := 410624    // MAX_INPUT_MSG_SIZE, 1024 * 401

  datatype Result = Rejected | InProgress | Complete

  datatype Collection =
    | Empty
    | Running(header: Header, blockLen: nat, parts: map<nat, seq<Byte>>)
  {
    ghost predicate Sound() {
      Running? ==>
        && 1 <= header.numParts <= MAX_PARTS && 1 <= blockLen <= MAX_FRAME_DECODED
        && blockLen * header.numParts <= MAX_INPUT && parts != map[]
        && forall i :: i in parts ==>
                         i < header.numParts && Fits(blockLen, i + 1 == header.numParts, |parts[i]|)
    }

    predicate Full() {
      Running? && |parts| == header.numParts
    }
  }

  // Only the final part may be short, and no part may be long.
  predicate Fits(blockLen: nat, isFinal: bool, len: nat) {
    if isFinal then 1 <= len <= blockLen else len == blockLen
  }

  function Progress(c: Collection): Result {
    if c.Full() then Complete else InProgress
  }

  // A frame that can open a collection: it fixes the block length.
  predicate Starts(f: Frame) {
    && (f.Final() ==> f.header.numParts == 1)
    && |f.payload| * f.header.numParts <= MAX_INPUT
  }

  function Begin(f: Frame): (Collection, Result) {
    if !Starts(f) then (Empty, Rejected)
    else
      var c := Running(f.header, |f.payload|, map[f.index := f.payload]);
      (c, Progress(c))
  }

  function Take(c: Collection, f: Frame): (Collection, Result) {
    if c.Empty? then Begin(f)
    else if c.header != f.header then (c, Rejected)
    else if f.index in c.parts then
      if c.parts[f.index] == f.payload then (c, Progress(c)) else Begin(f)
    else if !Fits(c.blockLen, f.Final(), |f.payload|) then (c, Rejected)
    else
      var more := c.(parts := c.parts[f.index := f.payload]);
      (more, Progress(more))
  }

  ghost function Step(c: Collection, data: string): (Collection, Result) {
    match ParseFrame(data)
    case None => (c, Rejected)
    case Some(f) => Take(c, f)
  }

  ghost function Run(frames: seq<string>): Collection {
    if frames == [] then Empty else Step(Run(frames[..|frames| - 1]), frames[|frames| - 1]).0
  }

  lemma TakeSound(c: Collection, f: Frame)
    requires c.Sound() && f.index < f.header.numParts <= MAX_PARTS && 1 <= |f.payload| <= MAX_FRAME_DECODED
    ensures Take(c, f).0.Sound()
  {
  }

  lemma StepSound(c: Collection, data: string)
    requires c.Sound()
    ensures Step(c, data).0.Sound()
    ensures Step(c, data).1 == Complete ==> Step(c, data).0.Full()
  {
    hide ParseFrame;
  }

  lemma {:induction false} RunSound(frames: seq<string>)
    ensures Run(frames).Sound()
  {
    if frames != [] {
      RunSound(frames[..|frames| - 1]);
      StepSound(Run(frames[..|frames| - 1]), frames[|frames| - 1]);
    }
  }

  // ---------------------------------------------------------------- the assembled bytes

  function Concat(parts: map<nat, seq<Byte>>, n: nat): seq<Byte>
    requires forall i :: 0 <= i < n ==> i in parts
  {
    if n == 0 then [] else Concat(parts, n - 1) + parts[n - 1]
  }

  // A set of n numbers below n is all of them.
  lemma {:induction false} AllBelow(s: set<nat>, n: nat)
    requires |s| == n && forall i :: i in s ==> i < n
    ensures forall i :: 0 <= i < n ==> i in s
  {
    if n > 0 {
      if n - 1 in s {
        AllBelow(s - {n - 1}, n - 1);
      } else {
        Crowded(s, n - 1);
      }
    }
  }

  lemma {:induction false} Crowded(s: set<nat>, n: nat)
    requires forall i :: i in s ==> i < n
    ensures |s| <= n
  {
    if n == 0 {
      assert s == {};
    } else {
      Crowded(s - {n - 1}, n - 1);
    }
  }

  lemma FullHasAll(c: Collection)
    requires c.Sound() && c.Full()
    ensures forall i :: 0 <= i < c.header.numParts ==> i in c.parts
  {
    assert |c.parts.Keys| == |c.parts|;
    AllBelow(c.parts.Keys, c.header.numParts);
  }

  // ---------------------------------------------------------------- where the parts came from

  // Does the frame become a part of the running collection, or start a new one?
  predicate Adds(c: Collection, f: Frame) {
    c.Running? && c.header == f.header && f.index !in c.parts && Fits(c.blockLen, f.Final(), |f.payload|)
  }

  predicate Restarts(c: Collection, f: Frame) {
    c.Empty? || (c.header == f.header && f.index in c.parts && c.parts[f.index] != f.payload)
  }

  // The positions of the frames accepted since the last restart.
  ghost function Accepted(frames: seq<string>): (h: seq<nat>)
    ensures forall k :: 0 <= k < |h| ==> h[k] < |frames|
  {
    if frames == [] then []
    else
      var last := |frames| - 1;
      var c, h := Run(frames[..last]), Accepted(frames[..last]);
      match ParseFrame(frames[last])
      case None => h
      case Some(f) =>
        if Adds(c, f) then h + [last]
        else if Restarts(c, f) then if Starts(f) then [last] else []
        else h
  }

  // Position k of the history holds a frame of the collection's header with the part it contributed.
  ghost predicate Contributes(frames: seq<string>, c: Collection, at: nat) {
    c.Running? && at < |frames| &&
    match ParseFrame(frames[at])
    case None => false
    case Some(f) => f.header == c.header && f.index in c.parts && c.parts[f.index] == f.payload
  }

  ghost function IndexAt(frames: seq<string>, at: nat): nat
    requires at < |frames|
  {
    match ParseFrame(frames[at])
    case None => 0
    case Some(f) => f.index
  }

  ghost predicate Explains(frames: seq<string>, h: seq<nat>, c: Collection) {
    && (c.Empty? <==> h == [])
    && (forall k :: 0 <= k < |h| ==> Contributes(frames, c, h[k]))
    && (forall j, k :: 0 <= j < k < |h| ==> h[j] < h[k] && IndexAt(frames, h[j]) != IndexAt(frames, h[k]))
    && (c.Running? ==> |h| == |c.parts|)
  }

  lemma ExplainsLonger(frames: seq<string>, more: string, h: seq<nat>, c: Collection)
    requires Explains(frames, h, c) && forall k :: 0 <= k < |h| ==> h[k] < |frames|
    ensures Explains(frames + [more], h, c)
  {
    hide ParseFrame;
    var all := frames + [more];
    forall k | 0 <= k < |h|
      ensures Contributes(all, c, h[k]) && IndexAt(all, h[k]) == IndexAt(frames, h[k])
    {
      assert Contributes(frames, c, h[k]) && all[h[k]] == frames[h[k]];
    }
  }

  lemma ExplainsAdd(frames: seq<string>, h: seq<nat>, c: Collection, f: Frame)
    requires frames != [] && Explains(frames, h, c) && Adds(c, f) && ParseFrame(frames[|frames| - 1]) == Some(f)
    requires forall k :: 0 <= k < |h| ==> h[k] < |frames| - 1
    ensures Explains(frames, h + [|frames| - 1], Take(c, f).0)
  {
    hide ParseFrame;
    var c', last := Take(c, f).0, |frames| - 1;
    forall k | 0 <= k < |h|
      ensures Contributes(frames, c', h[k]) && IndexAt(frames, h[k]) != f.index
    {
      assert Contributes(frames, c, h[k]);
    }
    assert Contributes(frames, c', last) && IndexAt(frames, last) == f.index;
    assert |c'.parts| == |c.parts| + 1;
  }

  lemma ExplainsBegin(frames: seq<string>, f: Frame)
    requires frames != [] && ParseFrame(frames[|frames| - 1]) == Some(f)
    ensures Explains(frames, if Starts(f) then [|frames| - 1] else [], Begin(f).0)
  {
    hide ParseFrame;
    if Starts(f) {
      assert Contributes(frames, Begin(f).0, |frames| - 1);
    }
  }

  // After any frames at all: the parts held are exactly what the accepted frames carried, one frame for
  // each part, all under one header.
  lemma {:induction false} Provenance(frames: seq<string>)
    ensures Explains(frames, Accepted(frames), Run(frames))
  {
    hide ParseFrame, Explains, Starts;
    if frames == [] {
      NothingYet();
    } else {
      var last := |frames| - 1;
      var before := frames[..last];
      assert before + [frames[last]] == frames;
      Provenance(before);
      var c, h := Run(before), Accepted(before);
      ExplainsLonger(before, frames[last], h, c);
      if ParseFrame(frames[last]).Some? {
        var f := ParseFrame(frames[last]).value;
        if Adds(c, f) {
          ExplainsAdd(frames, h, c, f);
        } else if Restarts(c, f) {
          ExplainsBegin(frames, f);
        }
      }
    }
  }

  lemma NothingYet()
    ensures Explains([], Accepted([]), Run([]))
  {
  }

  // Each part of a complete collection was accepted exactly once since the last restart.
  lemma EachPartOnce(frames: seq<string>, i: nat)
    requires Run(frames).Full() && i < Run(frames).header.numParts
    ensures exists k :: 0 <= k < |Accepted(frames)| && IndexAt(frames, Accepted(frames)[k]) == i
    ensures forall j, k :: 0 <= j < |Accepted(frames)| && 0 <= k < |Accepted(frames)| && j != k
                           ==> IndexAt(frames, Accepted(frames)[j]) != IndexAt(frames, Accepted(frames)[k])
  {
    hide ParseFrame;
    var c, h := Run(frames), Accepted(frames);
    Provenance(frames);
    RunSound(frames);
    var s := set k | 0 <= k < |h| :: IndexAt(frames, h[k]);
    forall k | 0 <= k < |h| ensures IndexAt(frames, h[k]) < c.header.numParts {
      assert Contributes(frames, c, h[k]);
    }
    DistinctCount(frames, h, |h|, s);
    AllBelow(s, c.header.numParts);
    assert i in s;
  }

  lemma {:induction false} DistinctCount(frames: seq<string>, h: seq<nat>, n: nat, s: set<nat>)
    requires n <= |h| && forall k :: 0 <= k < |h| ==> h[k] < |frames|
    requires forall j, k :: 0 <= j < k < n ==> IndexAt(frames, h[j]) != IndexAt(frames, h[k])
    requires s == set k | 0 <= k < n :: IndexAt(frames, h[k])
    ensures |s| == n
  {
    hide IndexAt;
    if n > 0 {
      var t := set k | 0 <= k < n - 1 :: IndexAt(frames, h[k]);
      DistinctCount(frames, h, n - 1, t);
      assert s == t + {IndexAt(frames, h[n - 1])};
    } else {
      assert s == {};
    }
  }
}
