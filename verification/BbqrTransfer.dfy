// A whole BBQr transfer seen by the collector of main/bbqr.c: wherever in the cycle the camera is pointed,
// N + 1 frames are enough, and frames of other transfers do not disturb it once it has begun.
module BbqrTransfer {
  import opened Bits
  import opened BbqrFrames
  import opened BbqrSpec

  datatype Transfer = Transfer(header: Header, parts: seq<seq<Byte>>)

  // Equal blocks, a last one that may be short, and a grid within the ceiling.
  ghost predicate WellFormed(t: Transfer) {
    && 1 <= |t.parts| == t.header.numParts <= MAX_PARTS
    && |t.parts[0]| * |t.parts| <= MAX_INPUT && 1 <= |t.parts[0]| <= MAX_FRAME_DECODED
    && forall i :: 0 <= i < |t.parts| ==> Fits(|t.parts[0]|, i + 1 == |t.parts|, |t.parts[i]|)
  }

  function Part(t: Transfer, i: nat): Frame
    requires i < |t.parts|
  {
    Frame(t.header, i, t.parts[i])
  }

  function RunFrames(c: Collection, fs: seq<Frame>): Collection
    decreases |fs|
  {
    if fs == [] then c else RunFrames(Take(c, fs[0]).0, fs[1..])
  }

  // The collection holding exactly the parts numbered in `s`.
  function Holding(t: Transfer, s: set<nat>): Collection
    requires t.parts != [] && forall i :: i in s ==> i < |t.parts|
  {
    if s == {} then Empty else Running(t.header, |t.parts[0]|, map i | i in s :: t.parts[i])
  }

  // The one frame refused: the last part, while the block length is unknown.
  predicate TooEarly(t: Transfer, s: set<nat>, i: nat) {
    s == {} && i + 1 == |t.parts| && |t.parts| > 1
  }

  // One genuine frame adds its part, whatever is already held, and never restarts.
  lemma TakeOwn(t: Transfer, s: set<nat>, i: nat)
    requires WellFormed(t) && i < |t.parts| && forall k :: k in s ==> k < |t.parts|
    ensures Take(Holding(t, s), Part(t, i)).0 == Holding(t, if TooEarly(t, s, i) then s else s + {i})
    ensures TooEarly(t, s, i) <==> Take(Holding(t, s), Part(t, i)).1 == Rejected
  {
    var c, f := Holding(t, s), Part(t, i);
    if s != {} {
      if i in s {
        assert s + {i} == s;
      } else {
        assert c.parts[i := t.parts[i]] == map k | k in s + {i} :: t.parts[k];
      }
    } else if !TooEarly(t, s, i) {
      assert |t.parts[i]| * |t.parts| <= MAX_INPUT;
      assert map[i := t.parts[i]] == map k | k in {i} :: t.parts[k];
      assert {} + {i} == {i};
    }
  }

  // ---------------------------------------------------------------- one cycle

  function At(t: Transfer, j: nat, k: nat): nat
    requires t.parts != []
    ensures At(t, j, k) < |t.parts|
  {
    (j + k) % |t.parts|
  }

  // k consecutive frames from part j on.
  function Cycle(t: Transfer, j: nat, k: nat): (fs: seq<Frame>)
    requires t.parts != []
    ensures |fs| == k
  {
    if k == 0 then [] else Cycle(t, j, k - 1) + [Part(t, At(t, j, k - 1))]
  }

  // The parts gathered from them.
  function Gathered(t: Transfer, j: nat, k: nat): (s: set<nat>)
    requires t.parts != []
    ensures forall i :: i in s ==> i < |t.parts|
  {
    if k == 0 then {}
    else
      var s, i := Gathered(t, j, k - 1), At(t, j, k - 1);
      if TooEarly(t, s, i) then s else s + {i}
  }

  lemma {:induction false} RunAppend(c: Collection, fs: seq<Frame>, f: Frame)
    ensures RunFrames(c, fs + [f]) == Take(RunFrames(c, fs), f).0
    decreases |fs|
  {
    if fs == [] {
      assert [f][1..] == [];
    } else {
      assert (fs + [f])[1..] == fs[1..] + [f];
      RunAppend(Take(c, fs[0]).0, fs[1..], f);
    }
  }

  lemma {:induction false} CycleGathers(t: Transfer, j: nat, k: nat)
    requires WellFormed(t)
    ensures RunFrames(Empty, Cycle(t, j, k)) == Holding(t, Gathered(t, j, k))
  {
    if k > 0 {
      hide Holding, WellFormed;
      CycleGathers(t, j, k - 1);
      var i := At(t, j, k - 1);
      RunAppend(Empty, Cycle(t, j, k - 1), Part(t, i));
      TakeOwn(t, Gathered(t, j, k - 1), i);
    }
  }

  // Only the very first frame can come too early.
  lemma {:induction false} LaterFramesCount(t: Transfer, j: nat, k: nat, m: nat)
    requires t.parts != [] && 1 <= m < k
    ensures At(t, j, m) in Gathered(t, j, k) && Gathered(t, j, k) != {}
  {
    var s, i := Gathered(t, j, k - 1), At(t, j, k - 1);
    if m < k - 1 {
      LaterFramesCount(t, j, k - 1, m);
    } else if k == 2 {
      SecondFrame(t, j);
    } else {
      LaterFramesCount(t, j, k - 1, m - 1);
    }
  }

  lemma SecondFrame(t: Transfer, j: nat)
    requires t.parts != []
    ensures Gathered(t, j, 1) != {} || At(t, j, 1) + 1 != |t.parts| || |t.parts| == 1
  {
    var n := |t.parts|;
    assert Gathered(t, j, 0) == {};
    if At(t, j, 0) + 1 == n && n > 1 {
      NextIndex(j, n);
    }
  }

  lemma NextIndex(j: nat, n: nat)
    requires n > 1 && j % n == n - 1
    ensures (j + 1) % n == 0
  {
    DivModUnique(j + 1, n, j / n + 1, 0);
  }

  function Below(n: nat): (s: set<nat>)
    ensures |s| == n && forall i: nat :: i in s <==> i < n
  {
    if n == 0 then {}
    else Below(n - 1) + {n - 1}
  }

  function AllParts(t: Transfer): set<nat> {
    Below(|t.parts|)
  }

  // Some frame other than the first carries part i.
  lemma Arrives(j: nat, n: nat, i: nat) returns (m: nat)
    requires i < n
    ensures 1 <= m <= n && (j + m) % n == i
  {
    var r := j % n;
    m := if i > r then i - r else i - r + n;
    DivModUnique(j + m, n, j / n + (if i > r then 0 else 1), i);
  }

  lemma SameSet(s: set<nat>, n: nat)
    requires forall i :: i in s ==> i < n
    requires forall i :: 0 <= i < n ==> i in s
    ensures s == Below(n)
  {
    assert forall i: nat :: i in s <==> i in Below(n);
  }

  lemma CycleGathersAll(t: Transfer, j: nat)
    requires t.parts != []
    ensures Gathered(t, j, |t.parts| + 1) == AllParts(t)
  {
    hide Gathered, Below;
    var n := |t.parts|;
    var s := Gathered(t, j, n + 1);
    forall i | 0 <= i < n ensures i in s {
      var m := Arrives(j, n, i);
      LaterFramesCount(t, j, n + 1, m);
    }
    SameSet(s, n);
  }

  // ---------------------------------------------------------------- other transfers in view

  predicate Own(t: Transfer, f: Frame) {
    f.header == t.header
  }

  function OwnFrames(t: Transfer, fs: seq<Frame>): seq<Frame> {
    if fs == [] then []
    else (if Own(t, fs[0]) then [fs[0]] else []) + OwnFrames(t, fs[1..])
  }

  // A frame with another header leaves the collector alone exactly when something is already running
  // or the frame could not have opened a collection of its own.
  lemma ForeignHarmless(c: Collection, f: Frame)
    requires c.Running? ==> c.header != f.header
    ensures Take(c, f).0 == c <==> c.Running? || !Starts(f)
  {
  }

  // A running collection is dropped for nothing by exactly one kind of frame: one under its own header that
  // contradicts a part held and cannot open a collection itself.
  predicate Drops(c: Collection, f: Frame) {
    && c.Running? && f.header == c.header && f.index in c.parts && c.parts[f.index] != f.payload
    && !Starts(f)
  }

  predicate Dropped(c: Collection, fs: seq<Frame>)
    decreases |fs|
  {
    fs != [] && (Drops(c, fs[0]) || Dropped(Take(c, fs[0]).0, fs[1..]))
  }

  // A foreign frame that opens a collection first keeps the collector, whatever is seen after it, until
  // its collection is dropped; that is exactly when the collector is empty again. Frames of the wanted transfer
  // alone change nothing at all.
  lemma {:induction false} Hijacked(t: Transfer, g: Frame, fs: seq<Frame>)
    requires g.header != t.header && Starts(g)
    ensures (forall k :: 0 <= k < |fs| ==> Own(t, fs[k])) ==> RunFrames(Empty, [g] + fs) == Begin(g).0
    ensures !Dropped(Begin(g).0, fs) ==>
              RunFrames(Empty, [g] + fs).Running? && RunFrames(Empty, [g] + fs).header == g.header
    ensures Dropped(Begin(g).0, fs) <==> exists k :: 0 <= k <= |fs| && RunFrames(Begin(g).0, fs[..k]).Empty?
  {
    assert ([g] + fs)[1..] == fs;
    KeepsCollector(Begin(g).0, fs);
    if Dropped(Begin(g).0, fs) {
      var k := EmptyAgain(Begin(g).0, fs);
    }
    if forall k :: 0 <= k < |fs| ==> Own(t, fs[k]) {
      StaysTaken(t, Begin(g).0, fs);
    }
  }

  lemma {:induction false} StaysTaken(t: Transfer, c: Collection, fs: seq<Frame>)
    requires c.Running? && c.header != t.header && forall k :: 0 <= k < |fs| ==> Own(t, fs[k])
    ensures RunFrames(c, fs) == c
    decreases |fs|
  {
    if fs != [] {
      StaysTaken(t, c, fs[1..]);
    }
  }

  lemma {:induction false} KeepsCollector(c: Collection, fs: seq<Frame>)
    requires c.Running?
    ensures !Dropped(c, fs) ==>
              forall k :: 0 <= k <= |fs| ==> RunFrames(c, fs[..k]).Running? && RunFrames(c, fs[..k]).header == c.header
    ensures fs[..|fs|] == fs
    decreases |fs|
  {
    if fs != [] && !Dropped(c, fs) {
      KeepsCollector(Take(c, fs[0]).0, fs[1..]);
      forall k | 0 < k <= |fs| ensures RunFrames(c, fs[..k]) == RunFrames(Take(c, fs[0]).0, fs[1..][..k - 1]) {
        assert fs[..k][1..] == fs[1..][..k - 1];
      }
    }
  }

  lemma {:induction false} EmptyAgain(c: Collection, fs: seq<Frame>) returns (k: nat)
    requires c.Running? && Dropped(c, fs)
    ensures k <= |fs| && RunFrames(c, fs[..k]).Empty?
    decreases |fs|
  {
    if Drops(c, fs[0]) {
      k := 1;
      assert fs[..1][1..] == [];
    } else {
      k := EmptyAgain(Take(c, fs[0]).0, fs[1..]);
      assert fs[..k + 1][1..] == fs[1..][..k];
      k := k + 1;
    }
  }

  // No foreign frame opens a collection before one of ours does.
  predicate Calm(t: Transfer, c: Collection, fs: seq<Frame>)
    decreases |fs|
  {
    fs == [] ||
    ((c.Empty? && !Own(t, fs[0]) ==> !Starts(fs[0])) && Calm(t, Take(c, fs[0]).0, fs[1..]))
  }

  // Frames with other headers, mixed in anywhere after that, change nothing.
  lemma {:induction false} InterleavingInvisible(t: Transfer, c: Collection, fs: seq<Frame>)
    requires (c.Running? ==> c.header == t.header) && Calm(t, c, fs)
    ensures RunFrames(c, fs) == RunFrames(c, OwnFrames(t, fs))
    decreases |fs|
  {
    if fs != [] {
      var c' := Take(c, fs[0]).0;
      InterleavingInvisible(t, c', fs[1..]);
      if Own(t, fs[0]) {
        assert OwnFrames(t, fs)[1..] == OwnFrames(t, fs[1..]);
      } else {
        ForeignHarmless(c, fs[0]);
        assert OwnFrames(t, fs) == OwnFrames(t, fs[1..]);
      }
    }
  }

  // A collection that gets full does so with a frame that is answered by Complete.
  lemma {:induction false} CompleteAnswered(c: Collection, fs: seq<Frame>) returns (k: nat)
    requires !c.Full() && RunFrames(c, fs).Full()
    ensures k < |fs| && Take(RunFrames(c, fs[..k]), fs[k]).1 == Complete
    decreases |fs|
  {
    var c' := Take(c, fs[0]).0;
    if c'.Full() {
      k := 0;
    } else {
      k := CompleteAnswered(c', fs[1..]);
      assert fs[..k + 1][1..] == fs[1..][..k];
      k := k + 1;
    }
  }

  // N + 1 consecutive frames from anywhere in the cycle, other transfers' frames mixed in, gather every
  // part, and one of them is answered by Complete; each prefix of the cycle held exactly its own parts, so nothing
  // was ever restarted.
  lemma TransferCompletes(t: Transfer, j: nat, fs: seq<Frame>)
    requires WellFormed(t) && OwnFrames(t, fs) == Cycle(t, j, |t.parts| + 1) && Calm(t, Empty, fs)
    ensures RunFrames(Empty, fs) == Holding(t, AllParts(t)) && RunFrames(Empty, fs).Full()
    ensures exists k :: 0 <= k < |fs| && Take(RunFrames(Empty, fs[..k]), fs[k]).1 == Complete
    ensures forall i :: 0 <= i < |t.parts| ==> RunFrames(Empty, fs).parts[i] == t.parts[i]
    ensures forall k :: 0 <= k <= |t.parts| + 1 ==>
                          RunFrames(Empty, Cycle(t, j, k)) == Holding(t, Gathered(t, j, k))
  {
    InterleavingInvisible(t, Empty, fs);
    CycleGathersAll(t, j);
    forall k | 0 <= k <= |t.parts| + 1
      ensures RunFrames(Empty, Cycle(t, j, k)) == Holding(t, Gathered(t, j, k))
    {
      CycleGathers(t, j, k);
    }
    var c := Holding(t, AllParts(t));
    assert 0 in AllParts(t);
    assert c.parts.Keys == AllParts(t);
    var k := CompleteAnswered(Empty, fs);
  }

  // ---------------------------------------------------------------- from message to message

  // The encoder's blocks: all of length `len` but the last.
  function Blocks(message: seq<Byte>, len: nat): (r: seq<seq<Byte>>)
    requires len > 0 && message != []
    ensures |r| >= 1 && |r[0]| == (if |message| < len then |message| else len)
    ensures len * (|r| - 1) < |message| <= len * |r|
    ensures forall i :: 0 <= i < |r| - 1 ==> |r[i]| == len
    ensures 1 <= |r[|r| - 1]| <= len
    decreases |message|
  {
    if |message| <= len then [message] else [message[..len]] + Blocks(message[len..], len)
  }

  function Flatten(blocks: seq<seq<Byte>>): seq<Byte> {
    if blocks == [] then [] else Flatten(blocks[..|blocks| - 1]) + blocks[|blocks| - 1]
  }

  lemma {:induction false} FlattenFront(b: seq<Byte>, blocks: seq<seq<Byte>>)
    ensures Flatten([b] + blocks) == b + Flatten(blocks)
  {
    if blocks == [] {
      assert [b][..0] == [] && [b] + blocks == [b];
    } else {
      var last := |blocks| - 1;
      FlattenFront(b, blocks[..last]);
      assert ([b] + blocks)[..last + 1] == [b] + blocks[..last];
    }
  }

  lemma {:induction false} BlocksRejoin(message: seq<Byte>, len: nat)
    requires len > 0 && message != []
    ensures Flatten(Blocks(message, len)) == message
    decreases |message|
  {
    if |message| <= len {
      FlattenFront(message, []);
    } else {
      assert Blocks(message, len) == [message[..len]] + Blocks(message[len..], len);
      hide Blocks, Flatten;
      BlocksRejoin(message[len..], len);
      FlattenFront(message[..len], Blocks(message[len..], len));
      assert Flatten(Blocks(message, len)) == message;
    }
  }

  lemma {:induction false} ConcatIsFlatten(blocks: seq<seq<Byte>>, parts: map<nat, seq<Byte>>, n: nat)
    requires n <= |blocks| && forall i :: 0 <= i < n ==> i in parts && parts[i] == blocks[i]
    ensures Concat(parts, n) == Flatten(blocks[..n])
  {
    if n > 0 {
      ConcatIsFlatten(blocks, parts, n - 1);
      assert blocks[..n][..n - 1] == blocks[..n - 1];
    }
  }

  // The texts of k consecutive frames.
  ghost function CycleTexts(t: Transfer, j: nat, k: nat): seq<string>
    requires t.parts != [] && |t.parts| == t.header.numParts <= MAX_PARTS
    decreases k
  {
    if k == 0 then [] else CycleTexts(t, j, k - 1) + [FrameText(Part(t, At(t, j, k - 1)))]
  }

  lemma {:induction false} CycleRuns(t: Transfer, j: nat, k: nat)
    requires t.parts != [] && |t.parts| == t.header.numParts <= MAX_PARTS
    requires forall i :: 0 <= i < |t.parts| ==> Sendable(Part(t, i))
    ensures Run(CycleTexts(t, j, k)) == RunFrames(Empty, Cycle(t, j, k))
  {
    if k > 0 {
      hide Take, Sendable, FrameText, RunFrames, Run;
      var f := Part(t, At(t, j, k - 1));
      CycleRuns(t, j, k - 1);
      RunAppend(Empty, Cycle(t, j, k - 1), f);
      RunText(CycleTexts(t, j, k - 1), f);
    } else {
      assert Run([]) == Empty;
    }
  }

  lemma RunText(texts: seq<string>, f: Frame)
    requires Sendable(f)
    ensures Run(texts + [FrameText(f)]) == Take(Run(texts), f).0
  {
    hide FrameText, ParseFrame, Take;
    FrameReadsBack(f);
    assert (texts + [FrameText(f)])[..|texts|] == texts;
  }

  lemma BlocksWellFormed(message: seq<Byte>, len: nat, h: Header)
    requires message != [] && 1 <= len <= MAX_FRAME_DECODED && (h.encoding != 'H' ==> len % 5 == 0)
    requires IsKnownEncoding(h.encoding) && IsKnownFileType(h.fileType)
    requires h.numParts == |Blocks(message, len)| <= MAX_PARTS
    requires |Blocks(message, len)[0]| * h.numParts <= MAX_INPUT
    ensures var t := Transfer(h, Blocks(message, len));
            WellFormed(t) && forall i :: 0 <= i < |t.parts| ==> Sendable(Part(t, i))
  {
    hide IsKnownEncoding, IsKnownFileType, Blocks;
    var blocks := Blocks(message, len);
    var t := Transfer(h, blocks);
    forall i | 0 <= i < |blocks|
      ensures Sendable(Part(t, i)) && Fits(|blocks[0]|, i + 1 == |blocks|, |blocks[i]|)
    {
      assert i < |blocks| - 1 ==> |blocks[i]| == len;
    }
  }

  // A message cut into blocks, put on the wire and scanned from any point of the cycle comes out whole.
  lemma MessageArrives(message: seq<Byte>, len: nat, h: Header, j: nat)
    requires message != [] && 1 <= len <= MAX_FRAME_DECODED && (h.encoding != 'H' ==> len % 5 == 0)
    requires IsKnownEncoding(h.encoding) && IsKnownFileType(h.fileType)
    requires h.numParts == |Blocks(message, len)| <= MAX_PARTS
    requires |Blocks(message, len)[0]| * h.numParts <= MAX_INPUT
    ensures var c := Run(CycleTexts(Transfer(h, Blocks(message, len)), j, h.numParts + 1));
            c.Sound() && c.Full() && c.header == h && (FullHasAll(c); Concat(c.parts, h.numParts)) == message
    ensures var texts := CycleTexts(Transfer(h, Blocks(message, len)), j, h.numParts + 1);
            exists k :: 0 <= k < |texts| && Step(Run(texts[..k]), texts[k]).1 == Complete
  {
    hide Blocks, WellFormed, Sendable, Cycle, CycleTexts, Run, RunFrames, Calm, OwnFrames, Concat, Flatten, Below;
    var blocks := Blocks(message, len);
    var t, k := Transfer(h, blocks), h.numParts + 1;
    BlocksWellFormed(message, len, h);
    CycleRuns(t, j, k);
    OwnCycle(t, j, k);
    TransferCompletes(t, j, Cycle(t, j, k));
    var c := Run(CycleTexts(t, j, k));
    var m := TextAnswered(CycleTexts(t, j, k));
    RunSound(CycleTexts(t, j, k));
    FullHasAll(c);
    ConcatIsFlatten(blocks, c.parts, h.numParts);
    assert blocks[..h.numParts] == blocks;
    BlocksRejoin(message, len);
  }

  lemma {:induction false} TextAnswered(texts: seq<string>) returns (k: nat)
    requires Run(texts).Full()
    ensures k < |texts| && Step(Run(texts[..k]), texts[k]).1 == Complete
  {
    hide ParseFrame;
    var last := |texts| - 1;
    if Run(texts[..last]).Full() {
      k := TextAnswered(texts[..last]);
      assert texts[..last][..k] == texts[..k];
    } else {
      k := last;
    }
  }

  lemma {:induction false} OwnCycle(t: Transfer, j: nat, k: nat)
    requires t.parts != []
    ensures OwnFrames(t, Cycle(t, j, k)) == Cycle(t, j, k) && forall c :: Calm(t, c, Cycle(t, j, k))
  {
    forall i | 0 <= i < k ensures Own(t, Cycle(t, j, k)[i]) {
      CycleAt(t, j, k, i);
    }
    AllOwn(t, Cycle(t, j, k));
  }

  lemma {:induction false} CycleAt(t: Transfer, j: nat, k: nat, i: nat)
    requires t.parts != [] && i < k
    ensures Cycle(t, j, k)[i] == Part(t, At(t, j, i))
  {
    if i < k - 1 {
      CycleAt(t, j, k - 1, i);
    }
  }

  lemma {:induction false} AllOwn(t: Transfer, fs: seq<Frame>)
    requires forall i :: 0 <= i < |fs| ==> Own(t, fs[i])
    ensures OwnFrames(t, fs) == fs && forall c :: Calm(t, c, fs)
  {
    if fs != [] {
      AllOwn(t, fs[1..]);
      assert fs == [fs[0]] + fs[1..];
    }
  }
}
