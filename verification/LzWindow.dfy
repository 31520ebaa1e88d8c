// The sliding window of libjade/miniz.c and the search for a match in it.
module LzWindow {
  import opened Bits
  import opened LzCodes

  const MIRROR := MAX_MATCH - 1
  const WORD := 0x1_0000_0000

  type U16 = x: nat | x < 65536

  function Slot(q: nat): (s: nat)
    ensures s < DICT_SIZE
  {
    q % DICT_SIZE
  }

  // The last 32768 input bytes sit at their position modulo 32768; the first 257 slots are mirrored
  // past the end so that a match never has to wrap.
  ghost predicate Window(dict: seq<Byte>, input: seq<Byte>) {
    && |dict| == DICT_SIZE + MIRROR
    && forall q :: 0 <= q < |input| && |input| - DICT_SIZE <= q ==>
                     dict[Slot(q)] == input[q] && (Slot(q) < MIRROR ==> dict[DICT_SIZE + Slot(q)] == input[q])
  }

  lemma SlotsApart(p: nat, q: nat)
    requires q < p < q + DICT_SIZE
    ensures Slot(q) != Slot(p)
  {
  }

  lemma SlotAdd(p: nat, k: nat)
    requires k < DICT_SIZE
    ensures Slot(p + k) == if Slot(p) + k < DICT_SIZE then Slot(p) + k else Slot(p) + k - DICT_SIZE
  {
  }

  // A new byte overwrites the one 32768 back, which leaves the window.
  lemma WindowGrows(dict: seq<Byte>, input: seq<Byte>, c: Byte, dict': seq<Byte>)
    requires Window(dict, input) && |dict'| == |dict|
    requires dict'[Slot(|input|)] == c
    requires Slot(|input|) < MIRROR ==> dict'[DICT_SIZE + Slot(|input|)] == c
    requires forall i :: 0 <= i < |dict| && i != Slot(|input|) && i != DICT_SIZE + Slot(|input|) ==> dict'[i] == dict[i]
    ensures Window(dict', input + [c])
  {
    var more := input + [c];
    forall q | 0 <= q < |more| && |more| - DICT_SIZE <= q
      ensures dict'[Slot(q)] == more[q] && (Slot(q) < MIRROR ==> dict'[DICT_SIZE + Slot(q)] == more[q])
    {
      if q < |input| {
        SlotsApart(|input|, q);
        assert more[q] == input[q];
      }
    }
  }

  // Reading on from the slot of `p` reads the input on from `p`, past the end of the ring too.
  lemma ReadOn(dict: seq<Byte>, input: seq<Byte>, p: nat, k: nat)
    requires Window(dict, input) && k <= MIRROR && p + k < |input| && |input| - DICT_SIZE <= p + k
    requires Slot(p) + k < DICT_SIZE + MIRROR
    ensures dict[Slot(p) + k] == input[p + k]
  {
    SlotAdd(p, k);
  }

  // Where parsing stands: `pos` bytes consumed, `ahead` more in the window, `back` usable behind.
  ghost predicate View(dict: seq<Byte>, input: seq<Byte>, pos: nat, back: nat, ahead: nat) {
    && Window(dict, input) && |input| == pos + ahead && ahead <= MAX_MATCH && back <= pos && back + ahead <= DICT_SIZE
  }

  lemma ReadAhead(dict: seq<Byte>, input: seq<Byte>, pos: nat, back: nat, ahead: nat, dist: nat, k: nat)
    requires View(dict, input, pos, back, ahead) && dist <= back && k < ahead
    ensures Slot(pos - dist) + k < |dict| && dict[Slot(pos - dist) + k] == input[pos - dist + k]
  {
    ReadOn(dict, input, pos - dist, k);
  }

  // A 16-bit link whose distance, computed in 32-bit arithmetic, is in range names the right slot.
  lemma LinkSlot(pos: nat, link: nat, dist: nat)
    requires link < 65536 && dist == ((pos % WORD) - link) % WORD % 65536 && dist <= pos && dist <= DICT_SIZE
    ensures Slot(link) == Slot(pos - dist)
  {
    var x := (pos % WORD) - link;
    var a, b := pos / WORD, x % WORD;
    var w := x / WORD;
    var c := b / 65536;
    assert pos == WORD * a + pos % WORD && x == WORD * w + b && b == 65536 * c + dist;
    assert pos - dist == link + 65536 * (65536 * a + 65536 * w + c);
    ModStep(link, 65536 * a + 65536 * w + c, pos - dist);
  }

  lemma ModStep(link: nat, k: int, p: nat)
    requires p == link + 65536 * k
    ensures Slot(link) == Slot(p)
  {
    assert p == link + DICT_SIZE * (2 * k);
    var q, r := link / DICT_SIZE, link % DICT_SIZE;
    assert p == DICT_SIZE * (q + 2 * k) + r;
    assert p / DICT_SIZE == q + 2 * k;
  }

  lemma WordSlot(pos: nat)
    ensures Slot(pos % WORD) == Slot(pos)
  {
    var a := pos / WORD;
    assert pos == WORD * a + pos % WORD;
    assert pos == pos % WORD + DICT_SIZE * (131072 * a);
    var q, r := (pos % WORD) / DICT_SIZE, (pos % WORD) % DICT_SIZE;
    assert pos == DICT_SIZE * (q + 131072 * a) + r;
    assert pos / DICT_SIZE == q + 131072 * a;
  }

  datatype Probe = Stop | Hit | Miss

  // One TDEFL_PROBE: follow a link and look at the two bytes that would make the match longer.
  method ProbeOnce(dict: array<Byte>, links: array<U16>, lookaheadPos: nat, probePos: nat, maxDist: nat, len: nat,
                   c0: Byte, c1: Byte, ghost pos: nat)
    returns (r: Probe, dist: nat, at: nat)
    requires dict.Length == DICT_SIZE + MIRROR && links.Length == DICT_SIZE && probePos < DICT_SIZE
    requires 1 <= len <= MIRROR && lookaheadPos == pos % WORD && maxDist <= pos && maxDist <= DICT_SIZE
    ensures at < DICT_SIZE
    ensures r != Stop ==> dist <= maxDist && at == Slot(pos - dist)
  {
    at, dist := probePos, 0;
    var link := links[probePos];
    if link == 0 {
      return Stop, 0, probePos;
    }
    dist := (lookaheadPos - link as int) % WORD % 65536;
    if dist > maxDist {
      return Stop, 0, probePos;
    }
    LinkSlot(pos, link, dist);
    at := Slot(link);
    r := if dict[at + len] == c0 && dict[at + len - 1] == c1 then Hit else Miss;
  }

  // The inner loop: up to three probes for each one counted.
  method NextCandidate(dict: array<Byte>, links: array<U16>, lookaheadPos: nat, probePos: nat, maxDist: nat, len: nat,
                       c0: Byte, c1: Byte, probes: nat, ghost pos: nat)
    returns (found: bool, dist: nat, at: nat, left: nat)
    requires dict.Length == DICT_SIZE + MIRROR && links.Length == DICT_SIZE && probePos < DICT_SIZE && probes >= 1
    requires 1 <= len <= MIRROR && lookaheadPos == pos % WORD && maxDist <= pos && maxDist <= DICT_SIZE
    ensures at < DICT_SIZE && left < probes
    ensures found ==> 1 <= left && dist <= maxDist && at == Slot(pos - dist)
  {
    found, dist, at, left := false, 0, probePos, probes;
    var r;
    while true
      invariant 1 <= left <= probes && at < DICT_SIZE
      decreases left
    {
      left := left - 1;
      if left == 0 {
        return;
      }
      r, dist, at := ProbeOnce(dict, links, lookaheadPos, at, maxDist, len, c0, c1, pos);
      if r == Miss {
        r, dist, at := ProbeOnce(dict, links, lookaheadPos, at, maxDist, len, c0, c1, pos);
      }
      if r == Miss {
        r, dist, at := ProbeOnce(dict, links, lookaheadPos, at, maxDist, len, c0, c1, pos);
      }
      if r == Stop {
        return;
      } else if r == Hit {
        found := true;
        return;
      }
    }
  }

  // Compare byte by byte from two places in the window.
  method MatchLength(dict: array<Byte>, s: nat, q: nat, maxLen: nat) returns (n: nat)
    requires dict.Length == DICT_SIZE + MIRROR && s < DICT_SIZE && q < DICT_SIZE && maxLen <= MAX_MATCH
    ensures n <= maxLen && dict[s..s + n] == dict[q..q + n]
  {
    n := 0;
    while n < maxLen
      invariant n <= maxLen && dict[s..s + n] == dict[q..q + n]
    {
      if dict[s + n] != dict[q + n] {
        break;
      }
      n := n + 1;
    }
  }

  // Equal window bytes are a repetition in the input.
  lemma WindowRepeats(dict: seq<Byte>, input: seq<Byte>, pos: nat, back: nat, ahead: nat, dist: nat, len: nat)
    requires View(dict, input, pos, back, ahead) && 1 <= dist <= back && len <= ahead
    requires dict[Slot(pos)..Slot(pos) + len] == dict[Slot(pos - dist)..Slot(pos - dist) + len]
    ensures Repeats(input, pos, dist, len)
  {
    forall i | pos <= i < pos + len ensures input[i] == input[i - dist] {
      ReadAhead(dict, input, pos, back, ahead, 0, i - pos);
      ReadAhead(dict, input, pos, back, ahead, dist, i - pos);
      assert dict[Slot(pos)..Slot(pos) + len][i - pos] == dict[Slot(pos - dist)..Slot(pos - dist) + len][i - pos];
    }
  }

  // The search. Whatever the hash chains hold, a longer match it reports is a true repetition within
  // reach; otherwise it returns what it was given.
  method FindMatch(dict: array<Byte>, links: array<U16>, lookaheadPos: nat, maxDist: nat, maxLen: nat,
                   dist0: nat, len0: nat, probesFew: nat, probesMany: nat, ghost input: seq<Byte>, ghost pos: nat)
    returns (dist: nat, len: nat)
    requires dict.Length == DICT_SIZE + MIRROR && links.Length == DICT_SIZE
    requires lookaheadPos == pos % WORD && View(dict[..], input, pos, maxDist, maxLen)
    requires 1 <= len0 <= MIRROR && probesFew >= 1 && probesMany >= 1
    ensures (dist == dist0 && len == len0) ||
            (len0 < len <= maxLen && 1 <= dist <= maxDist && Repeats(input, pos, dist, len))
  {
    dist, len := dist0, len0;
    var s := Slot(lookaheadPos);
    WordSlot(pos);
    var left := if len >= 32 then probesMany else probesFew;
    var c0, c1 := dict[s + len], dict[s + len - 1];
    if maxLen <= len {
      return;
    }
    var at: nat := s;
    while true
      invariant len < maxLen && 1 <= left && at < DICT_SIZE
      invariant (dist == dist0 && len == len0) ||
                (len0 < len && 1 <= dist <= maxDist && Repeats(input, pos, dist, len))
      decreases left
    {
      var found;
      var d: nat;
      found, d, at, left := NextCandidate(dict, links, lookaheadPos, at, maxDist, len, c0, c1, left, pos);
      if !found || d == 0 {
        return;
      }
      var n := MatchLength(dict, s, at, maxLen);
      if n > len {
        WindowRepeats(dict[..], input, pos, maxDist, maxLen, d, n);
        dist, len := d, n;
        if len == maxLen {
          return;
        }
        c0, c1 := dict[s + len], dict[s + len - 1];
      }
    }
  }
}
