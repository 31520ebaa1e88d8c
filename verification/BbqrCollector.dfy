// The BBQr collector of main/bbqr.c: parts decoded into a scratch buffer and assembled in place, with a
// bitmap of the parts seen, against the map-based meaning in BbqrSpec.
module BbqrCollector {
  import opened Bits
  import opened Options
  import opened BbqrFrames
  import opened BbqrSpec

  const SEEN_BYTES := 162    // (1295 + 7) / 8

  // ---------------------------------------------------------------- the bitmap

  // 1 << k
  function Mask(k: nat): bv8
    requires k < 8
  {
    if k == 0 then 1 else if k == 1 then 2 else if k == 2 then 4 else if k == 3 then 8
    else if k == 4 then 16 else if k == 5 then 32 else if k == 6 then 64 else 128
  }

  predicate Bit(seen: seq<bv8>, i: nat)
    requires i / 8 < |seen|
  {
    seen[i / 8] & Mask(i % 8) != 0
  }

  lemma MaskOr(b: bv8, k: nat, l: nat)
    requires k < 8 && l < 8
    ensures ((b | Mask(k)) & Mask(l) != 0) == (k == l || b & Mask(l) != 0)
  {
    var m, n := Mask(k), Mask(l);
    assert (b | m) & n == (b & n) | (m & n);
    assert k == l ==> m & n == n != 0;
    assert k != l ==> m & n == 0;
    assert (b & n) | 0 == b & n;
  }

  lemma MarkBit(seen: seq<bv8>, i: nat, l: nat)
    requires i / 8 < |seen| && l / 8 < |seen|
    ensures Bit(seen[i / 8 := seen[i / 8] | Mask(i % 8)], l) == (l == i || Bit(seen, l))
  {
    hide Mask;
    MaskOr(seen[i / 8], i % 8, l % 8);
    assert l / 8 == i / 8 && l % 8 == i % 8 ==> l == i;
  }

  lemma BlankMarks(seen: seq<bv8>)
    requires |seen| == SEEN_BYTES && forall k :: 0 <= k < |seen| ==> seen[k] == 0
    ensures Marked(seen, map[])
  {
  }

  // The bitmap marks exactly the parts held.
  ghost predicate Marked(seen: seq<bv8>, parts: map<nat, seq<Byte>>) {
    && |seen| == SEEN_BYTES
    && forall i: nat {:trigger Bit(seen, i)} {:trigger i in parts} ::
         i < 8 * SEEN_BYTES ==> (Bit(seen, i) <==> i in parts)
  }

  lemma MarkPart(seen: seq<bv8>, parts: map<nat, seq<Byte>>, i: nat, p: seq<Byte>)
    requires Marked(seen, parts) && i < 8 * SEEN_BYTES
    ensures Marked(seen[i / 8 := seen[i / 8] | Mask(i % 8)], parts[i := p])
  {
    hide Bit;
    var now := seen[i / 8 := seen[i / 8] | Mask(i % 8)];
    forall l: nat | l < 8 * SEEN_BYTES ensures Bit(now, l) <==> l in parts[i := p] {
      MarkBit(seen, i, l);
    }
  }

  // ---------------------------------------------------------------- the grid

  // index * block_len
  function Start(i: nat, blockLen: nat): nat {
    i * blockLen
  }

  function Slice(data: seq<Byte>, at: nat, n: nat): seq<Byte> {
    if at + n <= |data| then data[at..at + n] else []
  }

  // Part i sits at its own block; only the last one may be short.
  ghost predicate InPlace(data: seq<Byte>, blockLen: nat, numParts: nat, finalLen: nat, i: nat, p: seq<Byte>) {
    && i < numParts && |p| == (if i + 1 == numParts then finalLen else blockLen) && |p| <= blockLen
    && Slice(data, Start(i, blockLen), |p|) == p
  }

  ghost predicate Placed(data: seq<Byte>, blockLen: nat, numParts: nat, finalLen: nat, parts: map<nat, seq<Byte>>) {
    && |data| == Start(numParts, blockLen)
    && forall i :: i in parts ==> InPlace(data, blockLen, numParts, finalLen, i, parts[i])
  }

  lemma BlocksApart(i: nat, k: nat, blockLen: nat, numParts: nat)
    requires i < numParts && k < numParts
    ensures Start(i, blockLen) + blockLen == Start(i + 1, blockLen) <= Start(numParts, blockLen)
    ensures i < k ==> Start(i, blockLen) + blockLen <= Start(k, blockLen)
    ensures k < i ==> Start(k, blockLen) + blockLen <= Start(i, blockLen)
  {
    StartNext(i, blockLen);
    StartNext(k, blockLen);
    StartMonotone(i + 1, numParts, blockLen);
    hide Start;
    if i < k {
      StartMonotone(i + 1, k, blockLen);
    } else if k < i {
      StartMonotone(k + 1, i, blockLen);
    }
  }

  lemma StartNext(i: nat, blockLen: nat)
    ensures Start(i, blockLen) + blockLen == Start(i + 1, blockLen)
  {
  }

  lemma StartMonotone(a: nat, b: nat, blockLen: nat)
    requires a <= b
    ensures Start(a, blockLen) <= Start(b, blockLen)
  {
  }

  // Writing one part inside its block leaves the others.
  lemma OtherBlock(data: seq<Byte>, blockLen: nat, numParts: nat, finalLen: nat, i: nat, q: seq<Byte>,
                   k: nat, len: nat, now: seq<Byte>, finalLen': nat)
    requires InPlace(data, blockLen, numParts, finalLen, i, q) && i != k && k < numParts && len <= blockLen
    requires k + 1 != numParts ==> finalLen' == finalLen
    requires |data| == Start(numParts, blockLen) == |now|
    requires forall j :: 0 <= j < |data| && !(Start(k, blockLen) <= j < Start(k, blockLen) + len) ==> now[j] == data[j]
    ensures InPlace(now, blockLen, numParts, finalLen', i, q)
  {
    hide Start;
    BlocksApart(i, k, blockLen, numParts);
    assert Slice(now, Start(i, blockLen), |q|) == Slice(data, Start(i, blockLen), |q|);
  }

  lemma PlacePart(data: seq<Byte>, blockLen: nat, numParts: nat, finalLen: nat, parts: map<nat, seq<Byte>>,
                  k: nat, p: seq<Byte>, now: seq<Byte>, finalLen': nat)
    requires Placed(data, blockLen, numParts, finalLen, parts) && k !in parts
    requires InPlace(now, blockLen, numParts, finalLen', k, p)
    requires k + 1 != numParts ==> finalLen' == finalLen
    requires |data| == Start(numParts, blockLen) == |now|
    requires forall j :: 0 <= j < |data| && !(Start(k, blockLen) <= j < Start(k, blockLen) + |p|) ==> now[j] == data[j]
    ensures Placed(now, blockLen, numParts, finalLen', parts[k := p])
  {
    hide Start, Slice;
    var more := parts[k := p];
    forall i | i in more ensures InPlace(now, blockLen, numParts, finalLen', i, more[i]) {
      if i != k {
        assert InPlace(data, blockLen, numParts, finalLen, i, parts[i]);
        assert k < numParts && |p| <= blockLen;
        OtherBlock(data, blockLen, numParts, finalLen, i, parts[i], k, |p|, now, finalLen');
      }
    }
  }

  // The whole grid in order is the parts in order.
  lemma {:induction false} GridIsConcat(data: seq<Byte>, blockLen: nat, numParts: nat, finalLen: nat,
                                        parts: map<nat, seq<Byte>>, n: nat)
    requires Placed(data, blockLen, numParts, finalLen, parts) && n < numParts
    requires forall i :: 0 <= i < numParts ==> i in parts
    ensures Start(n, blockLen) <= |data| && data[..Start(n, blockLen)] == Concat(parts, n)
  {
    hide Start, InPlace, Slice;
    if n == 0 {
      AtZero(blockLen, parts);
    } else {
      GridIsConcat(data, blockLen, numParts, finalLen, parts, n - 1);
      BlocksApart(n - 1, n, blockLen, numParts);
      BlocksApart(n, n, blockLen, numParts);
      GridStep(data, blockLen, numParts, finalLen, n - 1, parts[n - 1]);
    }
  }

  lemma AtZero(blockLen: nat, parts: map<nat, seq<Byte>>)
    ensures Start(0, blockLen) == 0 && Concat(parts, 0) == []
  {
  }

  lemma GridStep(data: seq<Byte>, blockLen: nat, numParts: nat, finalLen: nat, i: nat, p: seq<Byte>)
    requires InPlace(data, blockLen, numParts, finalLen, i, p) && |data| == Start(numParts, blockLen)
    ensures Start(i, blockLen) + |p| <= |data|
    ensures data[..Start(i, blockLen) + |p|] == data[..Start(i, blockLen)] + p
    ensures |p| == if i + 1 == numParts then finalLen else blockLen
  {
    hide Start;
    BlocksApart(i, i, blockLen, numParts);
    var at := Start(i, blockLen);
    assert data[..at + |p|] == data[..at] + data[at..at + |p|];
  }

  lemma GridWhole(data: seq<Byte>, blockLen: nat, numParts: nat, finalLen: nat, parts: map<nat, seq<Byte>>)
    requires Placed(data, blockLen, numParts, finalLen, parts) && numParts > 0
    requires forall i :: 0 <= i < numParts ==> i in parts
    ensures var total := Start(numParts - 1, blockLen) + finalLen;
            total <= |data| && data[..total] == Concat(parts, numParts)
  {
    hide Start, InPlace;
    GridIsConcat(data, blockLen, numParts, finalLen, parts, numParts - 1);
    GridStep(data, blockLen, numParts, finalLen, numParts - 1, parts[numParts - 1]);
  }

  // ---------------------------------------------------------------- the context

  class Collector {
    // tinfl_decompress() over one whole buffer: a clean end, all input used, some output within the ceiling.
    const inflate: seq<Byte> -> Option<seq<Byte>>
    const seen: array<bv8>
    var data: array?<Byte>
    var dataLen: nat
    var inflated: Option<seq<Byte>>
    var scratch: array?<Byte>
    var blockLen: nat
    var finalLen: nat
    var numParts: nat
    var numSeen: nat
    var encoding: char
    var fileType: char
    ghost var parts: map<nat, seq<Byte>>

    ghost predicate Buffers()
      reads this
    {
      && seen.Length == SEEN_BYTES
      && (scratch != null ==> scratch.Length == MAX_FRAME_DECODED && scratch != data)
      && (data != null <==> numParts > 0)
      && data as object? != seen && scratch as object? != seen
    }

    ghost predicate Valid()
      reads this, seen, data
    {
      && Buffers() && Marked(seen[..], parts) && Abs().Sound()
      && if numParts == 0 then parts == map[] && numSeen == 0 && inflated.None?
         else
           && dataLen == data.Length && numSeen == |parts|
           && Placed(data[..], blockLen, numParts, finalLen, parts)
           && (inflated.Some? ==> Abs().Full() && inflated == inflate(Message()))
    }

    ghost function Abs(): Collection
      reads this
    {
      if numParts == 0 then Empty else Running(Header(encoding, fileType, numParts), blockLen, parts)
    }

    // The parts in order.
    ghost function Message(): seq<Byte>
      requires Abs().Sound() && Abs().Full()
      reads this
    {
      FullHasAll(Abs());
      Concat(parts, numParts)
    }

    constructor (inflate: seq<Byte> -> Option<seq<Byte>>)
      ensures Valid() && Abs() == Empty && fresh(seen) && scratch == null
    {
      this.inflate := inflate;
      seen := new bv8[SEEN_BYTES](_ => 0);
      data, dataLen, inflated, scratch := null, 0, None, null;
      blockLen, finalLen, numParts, numSeen := 0, 0, 0, 0;
      encoding, fileType := '\0', '\0';
      parts := map[];
      new;
      BlankMarks(seen[..]);
    }

    // Drop the collection but keep the scratch buffer.
    method Reset()
      requires Buffers()
      modifies this, seen
      ensures Valid() && Abs() == Empty && scratch == old(scratch)
    {
      data, dataLen, inflated := null, 0, None;
      blockLen, finalLen, numParts, numSeen := 0, 0, 0, 0;
      encoding, fileType := '\0', '\0';
      parts := map[];
      forall i | 0 <= i < seen.Length {
        seen[i] := 0;
      }
      BlankMarks(seen[..]);
    }

    // Open a collection whose blocks are as long as this frame's part.
    method Open(h: Header, len: nat)
      requires Valid() && Abs() == Empty && 1 <= len <= MAX_FRAME_DECODED
      requires 1 <= h.numParts <= MAX_PARTS && len * h.numParts <= MAX_INPUT
      modifies this
      ensures Buffers() && scratch == old(scratch) && fresh(data) && Marked(seen[..], parts)
      ensures numParts == h.numParts && encoding == h.encoding && fileType == h.fileType && blockLen == len
      ensures dataLen == data.Length && parts == map[] && numSeen == 0 && inflated.None?
      ensures Placed(data[..], blockLen, numParts, finalLen, parts)
    {
      var total := len * h.numParts;
      data := new Byte[total](_ => 0);
      assert total == Start(h.numParts, len);
      dataLen, blockLen, numParts := total, len, h.numParts;
      encoding, fileType := h.encoding, h.fileType;
    }

    // Copy the decoded part from the scratch buffer into its block and mark it.
    method Store(index: nat, len: nat)
      requires Buffers() && data != null && scratch != null && Marked(seen[..], parts)
      requires Placed(data[..], blockLen, numParts, finalLen, parts) && numSeen == |parts|
      requires index < numParts <= MAX_PARTS && index !in parts && Fits(blockLen, index + 1 == numParts, len)
      requires len <= MAX_FRAME_DECODED
      modifies this`finalLen, this`numSeen, this`parts, data, seen
      ensures Buffers() && Marked(seen[..], parts) && numSeen == |parts|
      ensures Placed(data[..], blockLen, numParts, finalLen, parts)
      ensures parts == old(parts)[index := old(scratch[..len])]
    {
      hide Placed, Marked, Start, Bit, Mask;
      ghost var was, marks, p := data[..], seen[..], scratch[..len];
      GridSize(was, blockLen, numParts, finalLen, parts);
      BlocksApart(index, index, blockLen, numParts);
      var at := Start(index, blockLen);
      forall i | 0 <= i < len {
        data[at + i] := scratch[i];
      }
      if index + 1 == numParts {
        finalLen := len;
      }
      assert Slice(data[..], at, len) == p;
      assert InPlace(data[..], blockLen, numParts, finalLen, index, p);
      PlacePart(was, blockLen, numParts, old(finalLen), parts, index, p, data[..], finalLen);
      assert seen[..] == marks;
      MarkSeen(index, p);
      parts := parts[index := p];
      numSeen := numSeen + 1;
    }

    // seen[index / 8] |= 1 << (index % 8)
    method MarkSeen(index: nat, ghost p: seq<Byte>)
      requires Marked(seen[..], parts) && index < 8 * SEEN_BYTES && seen.Length == SEEN_BYTES
      modifies seen
      ensures Marked(seen[..], parts[index := p])
    {
      hide Marked, Mask, Bit;
      ghost var marks := seen[..];
      seen[index / 8] := seen[index / 8] | Mask(index % 8);
      assert seen[..] == marks[index / 8 := marks[index / 8] | Mask(index % 8)];
      MarkPart(marks, parts, index, p);
    }

    // Complete once every part is in.
    method Answer() returns (r: Result)
      requires numParts > 0 && numSeen == |parts|
      ensures r == Progress(Abs())
    {
      r := if numSeen == numParts then Complete else InProgress;
    }

    // Is this the part already held, byte for byte?
    method SamePart(index: nat, len: nat) returns (same: bool)
      requires Valid() && index in parts && scratch != null && len <= MAX_FRAME_DECODED
      ensures same == (parts[index] == scratch[..len])
    {
      hide Marked, Start, Bit, Placed, InPlace, Collection.Sound;
      GridSize(data[..], blockLen, numParts, finalLen, parts);
      PartPlaced(data[..], blockLen, numParts, finalLen, parts, index);
      GridStep(data[..], blockLen, numParts, finalLen, index, parts[index]);
      var heldLen := if index + 1 == numParts then finalLen else blockLen;
      var at := Start(index, blockLen);
      same := heldLen == len && data[at..at + len] == scratch[..len];
    }

    // One frame: the new state and the answer are what the map-based collector says.
    method Collect(frame: string) returns (r: Result)
      requires Valid()
      modifies this, seen, data, scratch
      ensures Valid() && (Abs(), r) == Step(old(Abs()), frame)
      ensures data == old(data) || data == null || fresh(data)
      ensures scratch == old(scratch) || fresh(scratch)
    {
      hide ParseFrame, ParseHeader, Marked, Placed, Collection.Sound, Take, DecodePayload;
      var parsed := ReadHeader(frame);
      if parsed.None? {
        NoFrame(frame);
        return Rejected;
      }
      var h, index := parsed.value.0, parsed.value.1;
      if numParts > 0 && (encoding != h.encoding || fileType != h.fileType || numParts != h.numParts) {
        ForeignFrame(Abs(), frame);
        return Rejected;
      }
      if scratch == null {
        scratch := new Byte[MAX_FRAME_DECODED](_ => 0);
      }
      var isFinal := index == h.numParts - 1;
      var len := DecodeFramePayload(h.encoding, frame[HEADER_LEN..], isFinal, scratch);
      FrameFrom(frame, scratch[..len]);
      if len == 0 {
        return Rejected;
      }
      r := TakeDecoded(h, index, len);
    }

    // The frame's part is in the scratch buffer.
    method TakeDecoded(h: Header, index: nat, len: nat) returns (r: Result)
      requires Valid() && scratch != null && 1 <= len <= MAX_FRAME_DECODED && index < h.numParts <= MAX_PARTS
      requires Abs().Running? ==> Abs().header == h
      modifies this, seen, data
      ensures Valid() && scratch == old(scratch)
      ensures (Abs(), r) == Take(old(Abs()), Frame(h, index, old(scratch[..len])))
      ensures data == old(data) || data == null || fresh(data)
    {
      hide Marked, Placed, Collection.Sound, Begin, Bit;
      ghost var f := Frame(h, index, scratch[..len]);
      TakeSound(Abs(), f);
      if numParts > 0 {
        SeenIsHeld(seen[..], parts, index);
        if Bit(seen[..], index) {
          var same := SamePart(index, len);
          if same {
            r := Answer();
            return;
          }
          Reset();
        }
      }
      if numParts == 0 {
        r := BeginDecoded(h, index, len);
      } else {
        r := AddDecoded(h, index, len);
      }
    }

    // Nothing is held: the frame opens a collection, if it can.
    method BeginDecoded(h: Header, index: nat, len: nat) returns (r: Result)
      requires Valid() && scratch != null && 1 <= len <= MAX_FRAME_DECODED && index < h.numParts <= MAX_PARTS
      requires Abs() == Empty
      modifies this, seen
      ensures Valid() && scratch == old(scratch)
      ensures (Abs(), r) == Begin(Frame(h, index, old(scratch[..len])))
      ensures data == null || fresh(data)
    {
      hide Marked, Placed, Collection.Sound;
      ghost var f := Frame(h, index, scratch[..len]);
      TakeSound(Abs(), f);
      if index == h.numParts - 1 && h.numParts > 1 {
        return Rejected;
      }
      var total := len * h.numParts;
      if total > MAX_INPUT {
        return Rejected;
      }
      Open(h, len);
      assert scratch[..len] == f.payload;
      Store(index, len);
      r := Answer();
    }

    // A collection of this header runs and lacks this part.
    method AddDecoded(h: Header, index: nat, len: nat) returns (r: Result)
      requires Valid() && scratch != null && 1 <= len <= MAX_FRAME_DECODED && index < h.numParts <= MAX_PARTS
      requires Abs().Running? && Abs().header == h && index !in parts
      modifies this, seen, data
      ensures Valid() && scratch == old(scratch) && data == old(data)
      ensures (Abs(), r) == Take(old(Abs()), Frame(h, index, old(scratch[..len])))
    {
      hide Marked, Placed, Collection.Sound;
      ghost var f := Frame(h, index, scratch[..len]);
      TakeSound(Abs(), f);
      if if index == h.numParts - 1 then len > blockLen else len != blockLen {
        return Rejected;
      }
      NotYetFull(Abs(), index);
      Store(index, len);
      r := Answer();
    }

    // A finished transfer yields the parts in order, inflated for the 'Z' encoding.
    method Finalise() returns (r: Option<(seq<Byte>, char)>)
      requires Valid()
      modifies this`inflated
      ensures Valid() && Abs() == old(Abs())
      ensures !Abs().Full() ==> r == None
      ensures Abs().Full() && encoding != 'Z' ==> r == Some((Message(), fileType))
      ensures Abs().Full() && encoding == 'Z' ==>
                r == if inflate(Message()).None? then None else Some((inflate(Message()).value, fileType))
    {
      hide Placed, Marked, Collection.Sound, Concat;
      if numParts == 0 || numSeen != numParts || data == null {
        return None;
      }
      var message := Assembled();
      if encoding == 'Z' {
        if inflated.None? {
          inflated := inflate(message);
          if inflated.None? {
            return None;
          }
        }
        return Some((inflated.value, fileType));
      }
      return Some((message, fileType));
    }

    // The grid up to the end of the final part.
    method Assembled() returns (message: seq<Byte>)
      requires Valid() && Abs().Full()
      ensures message == Message()
    {
      hide Placed, Marked, Start, Collection.Sound, Concat;
      FullHasAll(Abs());
      GridWhole(data[..], blockLen, numParts, finalLen, parts);
      var total := Start(numParts - 1, blockLen) + finalLen;
      assert total <= dataLen;
      message := data[..total];
    }
  }

  lemma PartPlaced(data: seq<Byte>, blockLen: nat, numParts: nat, finalLen: nat, parts: map<nat, seq<Byte>>, i: nat)
    requires Placed(data, blockLen, numParts, finalLen, parts) && i in parts
    ensures InPlace(data, blockLen, numParts, finalLen, i, parts[i])
    ensures Slice(data, Start(i, blockLen), |parts[i]|) == parts[i]
  {
  }

  lemma GridSize(data: seq<Byte>, blockLen: nat, numParts: nat, finalLen: nat, parts: map<nat, seq<Byte>>)
    requires Placed(data, blockLen, numParts, finalLen, parts)
    ensures |data| == Start(numParts, blockLen)
  {
  }

  lemma SeenIsHeld(seen: seq<bv8>, parts: map<nat, seq<Byte>>, i: nat)
    requires Marked(seen, parts) && i < 8 * SEEN_BYTES
    ensures Bit(seen, i) <==> i in parts
  {
  }

  lemma NotYetFull(c: Collection, i: nat)
    requires c.Sound() && c.Running? && i < c.header.numParts && i !in c.parts
    ensures !c.Full()
  {
    if c.Full() {
      FullHasAll(c);
    }
  }

  lemma NoFrame(frame: string)
    requires ParseHeader(frame).None?
    ensures ParseFrame(frame).None?
  {
  }

  lemma ForeignFrame(c: Collection, frame: string)
    requires c.Running? && ParseHeader(frame).Some? && ParseHeader(frame).value.0 != c.header
    ensures Step(c, frame) == (c, Rejected)
  {
  }

  lemma FrameFrom(frame: string, p: seq<Byte>)
    requires ParseHeader(frame).Some?
    requires var (h, i) := ParseHeader(frame).value;
             p == DecodePayload(h.encoding, frame[HEADER_LEN..], i + 1 == h.numParts, MAX_FRAME_DECODED)
    ensures var (h, i) := ParseHeader(frame).value;
            ParseFrame(frame) == if p == [] then None else Some(Frame(h, i, p))
  {
  }
}
