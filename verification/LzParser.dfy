// The lazy/greedy LZ77 parser of libjade/miniz.c (tdefl_compress_normal): what it has recorded always
// stands for exactly the input it has consumed.
module LzParser {
  import opened Bits
  import opened LzCodes
  import opened LzWindow
  import opened BlockSender
  import opened BlockOutlet
  import opened DeflateStream
  import opened BlockWriter

  // Recorded operations against consumed input; a held-back match leaves one saved literal pending.
  ghost predicate Faithful(history: seq<Op>, input: seq<Byte>, pos: nat, savedLit: Byte, savedDist: nat,
                           savedLen: nat) {
    && Sound(history) && pos <= |input|
    && if savedLen == 0 then Expand(history) == input[..pos]
       else
         && pos >= 1 && MIN_MATCH <= savedLen < 128 && savedDist <= DICT_SIZE
         && Expand(history) == input[..pos - 1] && savedLit == input[pos - 1]
         && Repeats(input, pos - 1, savedDist, savedLen)
  }

  lemma FaithfulGrows(history: seq<Op>, input: seq<Byte>, pos: nat, lit: Byte, dist: nat, len: nat, more: seq<Byte>)
    requires Faithful(history, input, pos, lit, dist, len)
    ensures Faithful(history, input + more, pos, lit, dist, len)
  {
    assert (input + more)[..pos] == input[..pos];
    if len > 0 {
      assert (input + more)[..pos - 1] == input[..pos - 1];
    }
  }

  // Recording the byte at `pos` keeps the history exact.
  lemma LiteralKeeps(history: seq<Op>, input: seq<Byte>, pos: nat)
    requires Sound(history) && pos < |input| && Expand(history) == input[..pos]
    ensures Sound(history + [Literal(input[pos])]) && Expand(history + [Literal(input[pos])]) == input[..pos + 1]
  {
    ExpandAppend(history, Literal(input[pos]));
  }

  // So does recording a true repetition.
  lemma MatchKeeps(history: seq<Op>, input: seq<Byte>, pos: nat, dist: nat, len: nat)
    requires Sound(history) && Repeats(input, pos, dist, len) && Expand(history) == input[..pos]
    requires OpOk(Match(dist, len))
    ensures Sound(history + [Match(dist, len)]) && Expand(history + [Match(dist, len)]) == input[..pos + len]
  {
    ExpandAppend(history, Match(dist, len));
    CopyIsInput(input, pos, dist, len);
  }

  // What the match search and its filters may hand to the parser at `pos`.
  ghost predicate Offer(input: seq<Byte>, pos: nat, ahead: nat, dist: nat, len: nat, savedLen: nat) {
    && (dist > 0 ==> MIN_MATCH <= len <= ahead && dist <= DICT_SIZE && Repeats(input, pos, dist, len))
    && (dist == 0 ==> len <= savedLen || savedLen == 0)
  }

  lemma HeldLength(history: seq<Op>, input: seq<Byte>, pos: nat, savedLit: Byte, savedDist: nat, savedLen: nat)
    requires Faithful(history, input, pos, savedLit, savedDist, savedLen)
    ensures savedLen == 0 || MIN_MATCH <= savedLen < 128
  {
  }

  // m_prev_return_status; Aborted stands for a failed assertion.
  datatype Status = Okay | Done | BadParam | Aborted

  // ---------------------------------------------------------------- the bytes of a block

  lemma {:induction false} ExpandPrefix(a: seq<Op>, b: seq<Op>)
    ensures Expand(a) <= Expand(a + b)
    decreases |b|
  {
    if b == [] {
      assert a + b == a;
    } else {
      var n := |b| - 1;
      assert a + b == a + b[..n] + [b[n]];
      ExpandPrefix(a, b[..n]);
      ExpandAppend(a + b[..n], b[n]);
    }
  }

  // What the open block stands for: the input from where the block starts to where the record ends, which is less than
  // a 32-bit word can count.
  lemma BlockBytes(flushed: seq<Op>, ops: seq<Op>, codes: seq<Byte>, input: seq<Byte>, pos: nat,
                   savedLit: Byte, savedDist: nat, savedLen: nat)
    returns (bytes: seq<Byte>)
    requires Sound(flushed) && AllOk(ops) && codes == Packed(ops) && |codes| <= CODE_BUF_SIZE
    requires Faithful(flushed + ops, input, pos, savedLit, savedDist, savedLen)
    ensures Sound(flushed + ops) && Expand(flushed + ops) == Expand(flushed) + bytes && |bytes| == Produced(ops)
    ensures |bytes| + 1 < WORD && pos <= |input| && (savedLen != 0 ==> pos >= 1)
    ensures Expand(flushed) + bytes == input[..pos - (if savedLen == 0 then 0 else 1)]
    ensures pos >= |Expand(flushed)| + |bytes|
  {
    ExpandPrefix(flushed, ops);
    bytes := Expand(flushed + ops)[|Expand(flushed)|..];
    hide Expand, Sound, Packed, Produced;
    ProducedConcat(flushed, ops);
    ProducedIsLength(flushed);
    ProducedIsLength(flushed + ops);
    ProducedBound(ops);
    PackedLong(ops);
  }

  // If the block starts within the usable part of the window, all its bytes are there.
  lemma FlushFacts(flushed: seq<Op>, bytes: seq<Byte>, dict: seq<Byte>, input: seq<Byte>, pos: nat,
                   dictSize: nat, ahead: nat, savedLen: nat)
    requires View(dict, input, pos, dictSize, ahead) && |bytes| + 1 < WORD && (savedLen != 0 ==> pos >= 1)
    requires Expand(flushed) + bytes == input[..pos - (if savedLen == 0 then 0 else 1)]
    ensures var start := |Expand(flushed)| % WORD;
            && (start + |bytes|) % WORD == (|Expand(flushed)| + |bytes|) % WORD
            && ((pos % WORD + WORD - start) % WORD <= dictSize ==> InDict(dict, start, bytes))
  {
    var p0 := |Expand(flushed)|;
    var front := Expand(flushed);
    hide Expand;
    WordMod(p0, |bytes|);
    WordGap(pos, p0);
    if pos - p0 <= dictSize {
      forall i | 0 <= i < |bytes| ensures dict[(p0 % WORD + i) % DICT_SIZE] == bytes[i] {
        WordAdd(p0, i);
        assert bytes[i] == (front + bytes)[p0 + i] == input[p0 + i];
        assert dict[Slot(p0 + i)] == input[p0 + i];
      }
    }
  }

  // The 32-bit difference of two positions less than a word apart.
  lemma WordGap(pos: nat, p0: nat)
    requires p0 <= pos < p0 + WORD
    ensures (pos % WORD + WORD - p0 % WORD) % WORD == pos - p0
  {
    var a, b := pos / WORD, p0 / WORD;
    assert pos == WORD * a + pos % WORD && p0 == WORD * b + p0 % WORD;
    assert a == b || a == b + 1;
  }

  // Three bytes of running hash in 15 bits.
  function Roll(hash: bv15, c: Byte): bv15 {
    (hash << 5) ^ (c as bv15)
  }

  class Compressor {
    const dict: array<Byte>
    const links: array<U16>
    const heads: array<U16>
    const buf: CodeBuffer
    const probesFew: nat
    const probesMany: nat
    const greedy: bool
    const rleOnly: bool
    const filter: bool
    const rawOnly: bool
    const fixedOnly: bool
    const outlet: Outlet
    var lookaheadPos: nat   // 32-bit
    var lookaheadSize: nat
    var dictSize: nat
    var savedLit: Byte
    var savedDist: nat
    var savedLen: nat
    var src: seq<Byte>      // input not yet taken
    var codeBufPos: nat     // m_lz_code_buf_dict_pos, 32-bit: where the open block starts
    var wantsToFinish: bool
    var finished: bool
    var status: Status
    ghost var pos: nat      // bytes consumed
    ghost var input: seq<Byte>
    ghost var flushed: seq<Op>

    // Everything recorded since the start.
    ghost function History(): seq<Op>
      reads this, buf
    {
      flushed + buf.Ops()
    }

    // What went out stands for what was flushed.
    ghost predicate Archived()
      reads this`flushed, this`codeBufPos, outlet, outlet.w, outlet.w.out
    {
      && outlet.Valid() && Sound(flushed) && codeBufPos == |Expand(flushed)| % WORD
      && (!outlet.broken ==> Stands(outlet.sent, flushed))
    }

    ghost predicate Shape()
      reads this, dict, buf, buf.bytes, outlet, outlet.w, outlet.w.out
    {
      && Archived()
      && dict.Length == DICT_SIZE + MIRROR && links.Length == DICT_SIZE && heads.Length == 32768
      && links != heads && dict as object != buf.bytes && buf.Valid() && probesFew >= 1 && probesMany >= 1
      && outlet.w.out != dict && outlet.w.out != buf.bytes
    }

    ghost predicate Standing()
      reads this, dict
    {
      && dict.Length == DICT_SIZE + MIRROR && Window(dict[..], input)
      && lookaheadPos == pos % WORD && |input| == pos + lookaheadSize && lookaheadSize <= MAX_MATCH
      && dictSize <= pos && dictSize <= DICT_SIZE
    }

    // Where the stream stands: open until it is finished, and after that nothing is left to send.
    ghost predicate Phase()
      reads this, buf, outlet, outlet.w
    {
      && (status != Aborted ==> !outlet.broken && (if finished then Closed(outlet.sent) else Open(outlet.sent)))
      && (status != Aborted && finished ==> outlet.w.bitsIn == 0)
      && (finished ==> wantsToFinish && savedLen == 0 && buf.Ops() == [] && pos == |input|)
      && (status == Done ==> finished && outlet.pending == [])
    }

    ghost predicate Valid()
      reads this, dict, buf, buf.bytes, outlet, outlet.w, outlet.w.out
    {
      && Shape() && Standing() && Phase()
      && Faithful(History(), input, pos, savedLit, savedDist, savedLen)
      && buf.ofs + 8 <= CODE_BUF_SIZE
    }

    constructor (flags: nat, greedy: bool, rleOnly: bool, filter: bool, rawOnly: bool, fixedOnly: bool)
      ensures Valid() && input == [] && status == Okay && !wantsToFinish && !finished
      ensures this.fixedOnly == fixedOnly && this.rawOnly == rawOnly
      ensures outlet.given == outlet.output == outlet.pending == []
      ensures fresh(dict) && fresh(links) && fresh(heads) && fresh(buf) && fresh(buf.bytes)
      ensures fresh(outlet) && fresh(outlet.w) && fresh(outlet.w.out)
    {
      hide Window, Faithful, CodeBuffer.Valid, Outlet.Valid, Sound, Expand, Stands;
      dict := new Byte[DICT_SIZE + MIRROR](_ => 0);
      links := new U16[DICT_SIZE](_ => 0);
      heads := new U16[32768](_ => 0);
      buf := new CodeBuffer();
      outlet := new Outlet();
      probesFew, probesMany := 1 + (flags % 4096 + 2) / 3, 1 + (flags % 4096 / 4 + 2) / 3;
      this.greedy, this.rleOnly, this.filter := greedy, rleOnly, filter;
      this.rawOnly, this.fixedOnly := rawOnly, fixedOnly;
      lookaheadPos, lookaheadSize, dictSize, codeBufPos := 0, 0, 0, 0;
      savedLit, savedDist, savedLen := 0, 0, 0;
      src, wantsToFinish, finished, status := [], false, false, Okay;
      pos, input, flushed := 0, [], [];
      new;
      assert History() == [];
      NothingYet(dict[..]);
    }

    // Store one byte at its slot and in the mirror.
    method PutByte(c: Byte, dstPos: nat)
      requires dict.Length == DICT_SIZE + MIRROR && Window(dict[..], input) && dstPos == Slot(|input|)
      modifies this`input, dict
      ensures Window(dict[..], input) && input == old(input) + [c]
    {
      ghost var was := dict[..];
      dict[dstPos] := c;
      if dstPos < MIRROR {
        dict[DICT_SIZE + dstPos] := c;
      }
      WindowGrows(was, input, c, dict[..]);
      input := input + [c];
    }

    // Enter the three bytes at `insPos` into the hash chains.
    method Chain(hash: bv15, insPos: nat)
      requires links.Length == DICT_SIZE && heads.Length == 32768
      modifies links, heads
    {
      var h := hash as nat;
      links[Slot(insPos)] := heads[h];
      heads[h] := insPos % 65536;
    }

    // Take `n` bytes, hashing as they come.
    method TakeHashed(n: nat, start: nat)
      requires Shape() && n <= |src| && Window(dict[..], input) && start == Slot(|input|)
      requires |input| == pos + lookaheadSize && lookaheadSize + dictSize >= MIN_MATCH - 1
      modifies this`input, dict, links, heads
      ensures Shape() && Window(dict[..], input) && input == old(input) + src[..n]
    {
      hide Window, CodeBuffer.Valid, Archived;
      ghost var input0 := input;
      var dstPos := start;
      var insPos: nat := (lookaheadPos + lookaheadSize - 2) % WORD;
      var hash := Roll(dict[Slot(insPos)] as bv15, dict[Slot(insPos + 1)]);
      for i := 0 to n
        invariant Shape() && Window(dict[..], input) && input == input0 + src[..i] && dstPos == Slot(|input|)
      {
        var c := src[i];
        PutByte(c, dstPos);
        hash := Roll(hash, c);
        Chain(hash, insPos);
        SlotNext(|input| - 1);
        dstPos := Slot(dstPos + 1);
        insPos := (insPos + 1) % WORD;
      }
    }

    // Take the first bytes, before there are enough to hash.
    method TakeFirst(n: nat, start: nat)
      requires Shape() && n <= |src| && Window(dict[..], input) && start == Slot(|input|)
      modifies this`input, dict, links, heads
      ensures Shape() && Window(dict[..], input) && input == old(input) + src[..n]
    {
      hide Window, CodeBuffer.Valid, Archived;
      ghost var input0 := input;
      var dstPos := start;
      for i := 0 to n
        invariant Shape() && Window(dict[..], input) && input == input0 + src[..i] && dstPos == Slot(|input|)
      {
        var c := src[i];
        PutByte(c, dstPos);
        if lookaheadSize + i + 1 + dictSize >= MIN_MATCH {
          var insPos: nat := (lookaheadPos + lookaheadSize + i - 2) % WORD;
          var hash := Roll(Roll(dict[Slot(insPos)] as bv15, dict[Slot(insPos + 1)]), c);
          Chain(hash, insPos);
        }
        SlotNext(|input| - 1);
        dstPos := Slot(dstPos + 1);
      }
    }

    // Take bytes into the window until the lookahead is full or the source is empty.
    method FillLookahead() returns (n: nat)
      requires Shape() && Standing()
      modifies this`lookaheadSize, this`src, this`input, dict, links, heads
      ensures Shape() && Standing()
      ensures n == if |old(src)| < MAX_MATCH - old(lookaheadSize) then |old(src)| else MAX_MATCH - old(lookaheadSize)
      ensures lookaheadSize == old(lookaheadSize) + n
      ensures src == old(src)[n..] && input == old(input) + old(src)[..n]
    {
      hide Window, CodeBuffer.Valid, Archived;
      n := if |src| < MAX_MATCH - lookaheadSize then |src| else MAX_MATCH - lookaheadSize;
      WordAdd(pos, lookaheadSize);
      var dstPos := Slot(lookaheadPos + lookaheadSize);
      if lookaheadSize + dictSize >= MIN_MATCH - 1 {
        TakeHashed(n, dstPos);
      } else {
        TakeFirst(n, dstPos);
      }
      lookaheadSize := lookaheadSize + n;
      src := src[n..];
    }

    // A run of the byte just before, for the run-length-only mode.
    method RunLength() returns (len: nat)
      requires View(dict[..], input, pos, dictSize, lookaheadSize) && dictSize >= 1 && lookaheadPos == pos % WORD
      requires dict.Length == DICT_SIZE + MIRROR
      ensures len <= lookaheadSize && (len > 0 ==> Repeats(input, pos, 1, len))
    {
      hide Window;
      WordSlot(pos);
      var curPos := Slot(lookaheadPos);
      var c := dict[Slot(curPos + DICT_SIZE - 1)];
      SlotBefore(pos);
      if lookaheadSize == 0 {
        return 0;
      }
      LastByte(dict[..], input, pos, dictSize, lookaheadSize);
      len := 0;
      while len < lookaheadSize
        invariant len <= lookaheadSize && forall i :: pos <= i < pos + len ==> input[i] == c
      {
        ReadAhead(dict[..], input, pos, dictSize, lookaheadSize, 0, len);
        if dict[curPos + len] != c {
          break;
        }
        len := len + 1;
      }
    }

    // The match on offer at the current position, after every filter.
    method ChooseMatch() returns (dist: nat, len: nat)
      requires Shape() && View(dict[..], input, pos, dictSize, lookaheadSize) && lookaheadPos == pos % WORD
      requires savedLen == 0 || MIN_MATCH <= savedLen < 128
      ensures Offer(input, pos, lookaheadSize, dist, len, savedLen)
    {
      dist := 0;
      len := if savedLen != 0 then savedLen else MIN_MATCH - 1;
      if rleOnly || rawOnly {
        if dictSize > 0 && !rawOnly {
          len := RunLength();
          if len < MIN_MATCH {
            len := 0;
          } else {
            dist := 1;
          }
        }
      } else {
        dist, len := FindMatch(dict, links, lookaheadPos, dictSize, lookaheadSize, dist, len, probesFew, probesMany,
                               input, pos);
      }
      if (len == MIN_MATCH && dist >= 8 * 1024) || Slot(lookaheadPos) == dist || (filter && len <= 5) {
        dist, len := 0, 0;
      }
    }

    // A match is held back: the new one wins if it is longer, otherwise the old one is recorded.
    method ResolveHeld(dist: nat, len: nat, here: Byte) returns (move: nat)
      requires Valid() && savedLen != 0 && pos < |input| && here == input[pos]
      requires Offer(input, pos, lookaheadSize, dist, len, savedLen)
      modifies this`savedLit, this`savedDist, this`savedLen, buf, buf.bytes
      ensures Shape() && 1 <= move <= lookaheadSize
      ensures Faithful(History(), input, pos + move, savedLit, savedDist, savedLen)
    {
      hide Window, Expand, Sound, CodeBuffer.Valid, Archived;
      ghost var h := History();
      move := 1;
      if len > savedLen {
        LiteralKeeps(h, input, pos - 1);
        buf.RecordLiteral(savedLit);
        assert History() == h + [Literal(savedLit)];
        if len >= 128 {
          MatchKeeps(h + [Literal(savedLit)], input, pos, dist, len);
          buf.RecordMatch(len, dist);
          assert History() == h + [Literal(savedLit)] + [Match(dist, len)];
          savedLen := 0;
          move := len;
        } else {
          savedLit, savedDist, savedLen := here, dist, len;
        }
      } else {
        MatchKeeps(h, input, pos - 1, savedDist, savedLen);
        buf.RecordMatch(savedLen, savedDist);
        assert History() == h + [Match(savedDist, savedLen)];
        move := savedLen - 1;
        savedLen := 0;
      }
    }

    // Nothing is held back: record a literal or a match, or hold the match back one byte.
    method StartFresh(dist: nat, len: nat, here: Byte) returns (move: nat)
      requires Valid() && savedLen == 0 && pos < |input| && here == input[pos]
      requires Offer(input, pos, lookaheadSize, dist, len, savedLen)
      modifies this`savedLit, this`savedDist, this`savedLen, buf, buf.bytes
      ensures Shape() && 1 <= move <= lookaheadSize
      ensures Faithful(History(), input, pos + move, savedLit, savedDist, savedLen)
    {
      hide Window, Expand, Sound, CodeBuffer.Valid, Archived;
      ghost var h := History();
      move := 1;
      if dist == 0 {
        LiteralKeeps(h, input, pos);
        buf.RecordLiteral(here);
        assert History() == h + [Literal(here)];
      } else if greedy || rleOnly || len >= 128 {
        MatchKeeps(h, input, pos, dist, len);
        buf.RecordMatch(len, dist);
        assert History() == h + [Match(dist, len)];
        move := len;
      } else {
        savedLit, savedDist, savedLen := here, dist, len;
      }
    }

    // The lazy/greedy state machine: record, or hold a match back one byte.
    method ParseStep(dist: nat, len: nat) returns (move: nat)
      requires Valid() && View(dict[..], input, pos, dictSize, lookaheadSize) && lookaheadSize >= 1
      requires Offer(input, pos, lookaheadSize, dist, len, savedLen)
      modifies this`savedLit, this`savedDist, this`savedLen, buf, buf.bytes
      ensures Shape() && 1 <= move <= lookaheadSize
      ensures Faithful(History(), input, pos + move, savedLit, savedDist, savedLen)
    {
      hide Window, Faithful, CodeBuffer.Valid, Offer, Archived;
      WordSlot(pos);
      ReadAhead(dict[..], input, pos, dictSize, lookaheadSize, 0, 0);
      var here := dict[Slot(lookaheadPos)];
      if savedLen != 0 {
        move := ResolveHeld(dist, len, here);
      } else {
        move := StartFresh(dist, len, here);
      }
    }

    // The open block starts within the window.
    predicate InWindow()
      reads this
      requires codeBufPos < WORD
    {
      (lookaheadPos + WORD - codeBufPos) % WORD <= dictSize
    }

    // tdefl_flush_block(): the recorded codes go out as one block.
    method FlushBlock(flush: Flush)
      requires Shape() && Standing() && Faithful(History(), input, pos, savedLit, savedDist, savedLen)
      requires dictSize + lookaheadSize <= DICT_SIZE
      requires !outlet.broken && outlet.pending == [] && Open(outlet.sent)
      modifies this`flushed, this`codeBufPos, buf, buf.bytes, outlet, outlet.w, outlet.w.out
      ensures Shape() && Standing() && History() == old(History()) && buf.ofs == 1 && buf.Ops() == []
      ensures outlet.given == old(outlet.given) && outlet.outSize == old(outlet.outSize)
      ensures !outlet.broken ==> if flush == Finish then Closed(outlet.sent) else Open(outlet.sent)
      ensures !outlet.broken && flush != NoFlush ==> outlet.w.bitsIn == 0
      ensures outlet.broken ==>
                flush != NoFlush && !fixedOnly && old(codeBufPos < WORD && !InWindow())
      ensures !outlet.broken && outlet.pending != [] ==> |outlet.output| == outlet.outSize
    {
      hide Window, Faithful, CodeBuffer.Valid, Packed, LitCounts, DistCounts, Produced, AllOk, Expand, Sound, Stands;
      hide Outlet.Valid, Open, Closed, InDict;
      ghost var ops := buf.Ops();
      var inWindow := InWindow();
      var codes := buf.Finish();
      ghost var bytes := BlockBytes(flushed, ops, codes, input, pos, savedLit, savedDist, savedLen);
      FlushFacts(flushed, bytes, dict[..], input, pos, dictSize, lookaheadSize, savedLen);
      assert inWindow ==> InDict(dict[..], codeBufPos, bytes);
      hide InWindow;
      outlet.Flush(flush, codes, buf.litCounts, buf.distCounts, buf.total, dict, codeBufPos, inWindow,
                   rawOnly && inWindow, fixedOnly || buf.total < SMALL_BLOCK, ops, bytes, flushed);
      codeBufPos := (codeBufPos + buf.total) % WORD;
      flushed := flushed + ops;
      buf.Reset();
      assert buf.Ops() == [];
    }

    // Choose, parse and advance once the lookahead is ready.
    method Turn() returns (move: nat)
      requires Valid() && lookaheadSize >= 1 && dictSize + lookaheadSize <= DICT_SIZE
      modifies this`lookaheadPos, this`lookaheadSize, this`dictSize, this`savedLit, this`savedDist, this`savedLen
      modifies this`pos, buf, buf.bytes
      ensures Shape() && Standing() && Faithful(History(), input, pos, savedLit, savedDist, savedLen)
      ensures 1 <= move <= old(lookaheadSize) && lookaheadSize == old(lookaheadSize) - move && pos == old(pos) + move
      ensures dictSize + lookaheadSize <= DICT_SIZE
    {
      hide Window, CodeBuffer.Valid, Archived, Faithful, Offer, Open, Closed;
      HeldLength(History(), input, pos, savedLit, savedDist, savedLen);
      var dist, len := ChooseMatch();
      move := ParseStep(dist, len);
      WordMod(pos, move);
      lookaheadPos := (lookaheadPos + move) % WORD;
      lookaheadSize := lookaheadSize - move;
      dictSize := if dictSize + move < DICT_SIZE then dictSize + move else DICT_SIZE;
      pos := pos + move;
    }

    // Flush when the code buffer is nearly full, or the block is long and not shrinking.
    method FlushIfDue()
      requires Shape() && Standing() && Faithful(History(), input, pos, savedLit, savedDist, savedLen)
      requires dictSize + lookaheadSize <= DICT_SIZE
      requires !outlet.broken && outlet.pending == [] && Open(outlet.sent)
      modifies this`flushed, this`codeBufPos, buf, buf.bytes, outlet, outlet.w, outlet.w.out
      ensures Shape() && Standing() && History() == old(History()) && buf.ofs + 8 <= CODE_BUF_SIZE
      ensures outlet.given == old(outlet.given) && outlet.outSize == old(outlet.outSize)
      ensures !outlet.broken && Open(outlet.sent) && (outlet.pending != [] ==> |outlet.output| == outlet.outSize)
    {
      hide CodeBuffer.Valid, Shape, Standing, Faithful, Open, Closed;
      if buf.ofs + 8 > CODE_BUF_SIZE ||
         (buf.total > 31 * 1024 && (buf.ofs * 115 / 128 >= buf.total || rawOnly)) {
        FlushBlock(NoFlush);
      }
    }

    // A call is at work: the stream is open and nothing waits from earlier calls.
    ghost predicate Working()
      reads this, outlet
    {
      status == Okay && !finished && !outlet.broken && Open(outlet.sent)
    }

    // One turn of the main loop; `wait` when more input should come first.
    method Round(flush: bool) returns (n: nat, wait: bool)
      requires Valid() && Working() && outlet.pending == [] && (|src| > 0 || (flush && lookaheadSize > 0))
      modifies this, dict, links, heads, buf, buf.bytes, outlet, outlet.w, outlet.w.out
      ensures Valid() && Working() && n <= |old(src)| && src == old(src)[n..] && input == old(input) + old(src)[..n]
      ensures wantsToFinish == old(wantsToFinish)
      ensures outlet.given == old(outlet.given) && outlet.outSize == old(outlet.outSize)
      ensures outlet.pending != [] ==> |outlet.output| == outlet.outSize
      ensures wait ==> !flush && outlet.pending == [] && src == []
      ensures !wait ==> |src| + lookaheadSize < |old(src)| + old(lookaheadSize)
    {
      hide Window, CodeBuffer.Valid, Faithful, Archived, Open, Closed;
      wait := false;
      ghost var before := input;
      n := FillLookahead();
      FaithfulGrows(History(), before, pos, savedLit, savedDist, savedLen, old(src)[..n]);
      dictSize := if DICT_SIZE - lookaheadSize < dictSize then DICT_SIZE - lookaheadSize else dictSize;
      if !flush && lookaheadSize < MAX_MATCH {
        wait := true;
        return;
      }
      var move := Turn();
      FlushIfDue();
    }

    // The main loop. Each turn keeps the recorded operations exact; it stops early only when output waits for the
    // caller's next buffer, and otherwise a flush has consumed everything.
    method CompressNormal(flush: bool) returns (ghost taken: nat)
      requires Valid() && Working() && outlet.pending == []
      modifies this, dict, links, heads, buf, buf.bytes, outlet, outlet.w, outlet.w.out
      ensures Valid() && Working() && wantsToFinish == old(wantsToFinish)
      ensures taken <= |old(src)| && src == old(src)[taken..] && input == old(input) + old(src)[..taken]
      ensures outlet.given == old(outlet.given) && outlet.outSize == old(outlet.outSize)
      ensures outlet.pending != [] ==> |outlet.output| == outlet.outSize
      ensures outlet.pending == [] ==> src == [] && (flush ==> lookaheadSize == 0)
    {
      hide Valid, Open;
      taken := 0;
      ghost var src0, input0 := src, input;
      while |src| > 0 || (flush && lookaheadSize > 0)
        invariant Valid() && Working() && outlet.pending == [] && wantsToFinish == old(wantsToFinish)
        invariant taken <= |src0| && src == src0[taken..] && input == input0 + src0[..taken]
        invariant outlet.given == old(outlet.given) && outlet.outSize == old(outlet.outSize)
        decreases |src| + lookaheadSize
      {
        var n, wait := Round(flush);
        taken := taken + n;
        if wait || outlet.pending != [] {
          break;
        }
      }
    }

    // Everything given to the compressor so far has gone into blocks.
    ghost predicate AllOut()
      reads this`input, outlet`sent
    {
      Expand(AllOps(outlet.sent)) == input
    }

    // One call of tdefl_compress() with a buffer of `outSize` bytes for the output. Unless output was waiting, a call
    // that leaves room to spare has taken all its input; once nothing waits after a flush, everything taken so far is
    // in the blocks handed over, up to a whole byte.
    method Compress(data: seq<Byte>, outSize: nat, flush: Flush)
      returns (r: Status, output: seq<Byte>, ghost taken: nat)
      requires Valid()
      modifies this, dict, links, heads, buf, buf.bytes, outlet, outlet.w, outlet.w.out
      ensures Valid() && r == status && output == outlet.output && |output| <= outSize
      ensures outlet.given == old(outlet.given) + old(outlet.output)
      ensures taken <= |data| && input == old(input) + data[..taken]
      ensures old(status) != Okay || (old(wantsToFinish) && flush != Finish) ==> r == BadParam || r == Aborted
      ensures r == BadParam ==> old(status) != Okay || (old(wantsToFinish) && flush != Finish)
      ensures r == Okay && |output| < outSize ==>
                outlet.pending == [] && (old(outlet.pending) == [] ==> taken == |data|)
      ensures r == Okay && old(outlet.pending) == [] && flush != NoFlush && outlet.pending == [] ==>
                taken == |data| && AllOut() && outlet.w.bitsIn == 0 && flush != Finish
      ensures r == Done ==> finished && outlet.pending == [] && AllOut()
      ensures r == Done && !old(finished) && old(outlet.pending) == [] ==> taken == |data|
      ensures fixedOnly && old(status) != Aborted ==> r != Aborted
    {
      hide Valid, AllOut, Open;
      taken := 0;
      var accepted := Start(data, outSize, flush);
      if !accepted {
        return status, outlet.output, 0;
      }
      if outlet.pending == [] && !finished {
        taken := Work(flush);
        if status == Aborted {
          OutputFits(this);
          return status, outlet.output, taken;
        }
      }
      Handover();
      if finished {
        FinishedOut(this);
      }
      OutputFits(this);
      return status, outlet.output, taken;
    }

    // The caller's buffers, and whether the call is one that may be made.
    method Start(data: seq<Byte>, outSize: nat, flush: Flush) returns (accepted: bool)
      requires Valid()
      modifies this`status, this`wantsToFinish, this`src, outlet
      ensures Valid() && outlet.outSize == outSize && outlet.output == []
      ensures outlet.given == old(outlet.given) + old(outlet.output) && outlet.pending == old(outlet.pending)
      ensures accepted <==> old(status) == Okay && !(old(wantsToFinish) && flush != Finish)
      ensures accepted ==> status == Okay && src == data && (flush == Finish ==> wantsToFinish)
      ensures accepted && !finished ==> Working()
      ensures !accepted ==> status == if old(status) == Aborted then Aborted else BadParam
    {
      hide Window, CodeBuffer.Valid, Faithful, Sound, Expand, Open, Closed, Stands, Outlet.Valid;
      outlet.Begin(outSize);
      accepted := status == Okay && !(wantsToFinish && flush != Finish);
      if !accepted {
        status := if status == Aborted then Aborted else BadParam;
      } else {
        wantsToFinish, src := wantsToFinish || flush == Finish, data;
      }
    }

    // The main loop, and the end-of-input work if everything was consumed.
    method Work(flush: Flush) returns (ghost taken: nat)
      requires Valid() && Working() && outlet.pending == [] && (flush == Finish ==> wantsToFinish)
      modifies this, dict, links, heads, buf, buf.bytes, outlet, outlet.w, outlet.w.out
      ensures Valid() && (status == Okay || status == Aborted) && (fixedOnly ==> status == Okay)
      ensures outlet.given == old(outlet.given) && outlet.outSize == old(outlet.outSize)
      ensures taken <= |old(src)| && input == old(input) + old(src)[..taken]
      ensures status == Okay && outlet.pending != [] ==> |outlet.output| == outlet.outSize
      ensures status == Okay && (outlet.pending == [] || finished) ==> taken == |old(src)|
      ensures status == Okay && flush != NoFlush && (outlet.pending == [] || finished) ==>
                AllOut() && outlet.w.bitsIn == 0 && finished == (flush == Finish)
      ensures finished ==> flush == Finish
    {
      hide Valid, AllOut, Open;
      taken := CompressNormal(flush != NoFlush);
      if flush != NoFlush && lookaheadSize == 0 && src == [] && outlet.pending == [] {
        FlushAll(flush);
      }
    }

    // The block that ends a flush.
    method FlushAll(flush: Flush)
      requires Valid() && Working() && outlet.pending == [] && lookaheadSize == 0 && flush != NoFlush
      requires flush == Finish ==> wantsToFinish
      modifies this, links, heads, buf, buf.bytes, outlet, outlet.w, outlet.w.out
      ensures Valid() && (status == Okay || status == Aborted) && (fixedOnly ==> status == Okay)
      ensures outlet.given == old(outlet.given) && outlet.outSize == old(outlet.outSize) && input == old(input)
      ensures status == Okay ==> outlet.pending != [] ==> |outlet.output| == outlet.outSize
      ensures status == Okay ==> AllOut() && outlet.w.bitsIn == 0 && finished == (flush == Finish)
      ensures finished ==> flush == Finish
    {
      hide Window, CodeBuffer.Valid, Faithful, Sound, Expand, Open, Closed, Stands, Outlet.Valid, AllOut;
      NothingPending(this);
      FlushBlock(flush);
      if outlet.broken {
        status := Aborted;
        return;
      }
      finished := flush == Finish;
      FlushedOut(this);
      if flush == FullFlush {
        ClearChains();
      }
    }

    // What waits, as far as it fits; the status says whether that was all.
    method Handover()
      requires Valid() && status == Okay
      modifies this`status, outlet`output, outlet`pending
      ensures Valid() && (status == Done <==> finished && outlet.pending == []) && (status == Done || status == Okay)
      ensures outlet.pending != [] ==> |outlet.output| == outlet.outSize
      ensures old(outlet.pending) == [] || |old(outlet.output)| == outlet.outSize ==>
                outlet.pending == old(outlet.pending) && outlet.output == old(outlet.output)
    {
      hide Window, CodeBuffer.Valid, Faithful, Open, Closed, Sound, Expand, Stands, Outlet.Valid;
      outlet.FlushOutput();
      status := if finished && outlet.pending == [] then Done else Okay;
    }

    // A full flush forgets the window.
    method ClearChains()
      requires Valid()
      modifies this`dictSize, links, heads
      ensures Valid() && dictSize == 0
    {
      hide Window, CodeBuffer.Valid, Faithful, Archived;
      forall i | 0 <= i < heads.Length {
        heads[i] := 0;
      }
      forall i | 0 <= i < links.Length {
        links[i] := 0;
      }
      dictSize := 0;
      assert dict[..] == old(dict[..]) && History() == old(History());
    }
  }

  lemma WordMod(pos: nat, k: nat)
    ensures (pos % WORD + k) % WORD == (pos + k) % WORD
  {
    var a, x := pos / WORD, pos % WORD + k;
    assert pos + k == WORD * (a + x / WORD) + x % WORD;
    assert (pos + k) / WORD == a + x / WORD;
  }

  lemma SlotNext(q: nat)
    ensures Slot(Slot(q) + 1) == Slot(q + 1)
  {
    SlotAdd(q, 1);
  }

  lemma SlotBefore(q: nat)
    requires q >= 1
    ensures Slot(Slot(q) + DICT_SIZE - 1) == Slot(q - 1)
  {
    SlotAdd(q - 1, 1);
  }

  lemma LastByte(dict: seq<Byte>, input: seq<Byte>, pos: nat, back: nat, ahead: nat)
    requires View(dict, input, pos, back, ahead) && back >= 1 && ahead >= 1
    ensures dict[Slot(pos - 1)] == input[pos - 1]
  {
    ReadAhead(dict, input, pos, back, ahead, 1, 0);
  }

  lemma WordAdd(pos: nat, k: nat)
    ensures Slot(pos % WORD + k) == Slot(pos + k)
  {
    var a := pos / WORD;
    assert pos + k == pos % WORD + k + DICT_SIZE * (131072 * a);
    var x := pos % WORD + k;
    var q, r := x / DICT_SIZE, x % DICT_SIZE;
    assert pos + k == DICT_SIZE * (q + 131072 * a) + r;
    assert (pos + k) / DICT_SIZE == q + 131072 * a;
  }

  // Nothing left ahead means nothing is pending: the recorded operations are the whole input.
  lemma NothingPending(c: Compressor)
    requires c.Valid() && c.lookaheadSize == 0
    ensures c.savedLen == 0 && Sound(c.History()) && Expand(c.History()) == c.input
  {
    assert c.input[..c.pos] == c.input;
  }

  lemma NothingYet(dict: seq<Byte>)
    requires |dict| == DICT_SIZE + MIRROR
    ensures Window(dict, []) && Sound([]) && Expand([]) == [] && Stands([], []) && Faithful([], [], 0, 0, 0, 0)
  {
  }

  lemma OutputFits(c: Compressor)
    requires c.Valid()
    ensures |c.outlet.output| <= c.outlet.outSize
  {
  }

  // With nothing recorded since, what went out is the whole input.
  lemma FlushedOut(c: Compressor)
    requires c.Shape() && !c.outlet.broken && c.buf.Ops() == [] && Expand(c.History()) == c.input
    ensures c.AllOut()
  {
    hide Expand, Sound;
    assert c.flushed + [] == c.flushed;
  }

  lemma FinishedOut(c: Compressor)
    requires c.Valid() && c.finished && c.status != Aborted
    ensures c.AllOut()
  {
    hide Expand, Sound, Stands, Window, Outlet.Valid;
    assert c.input[..c.pos] == c.input;
    FlushedOut(c);
  }

  // At any time, recorded operations and the saved literal make up the consumed bytes.
  lemma ConsumedExactly(c: Compressor)
    requires c.Valid()
    ensures Sound(c.History())
    ensures Expand(c.History()) + (if c.savedLen != 0 then [c.savedLit] else []) == c.input[..c.pos]
  {
  }
}
