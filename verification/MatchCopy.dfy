// The decoder's match copying in tinfl_decompress(), libjade/miniz.c: three bytes at a time into an
// output buffer the source may overlap, byte by byte near the end of it.
module MatchCopy {
  import opened Bits
  import opened LzCodes

  // Copying one more byte of a match.
  lemma CopyStep(out: seq<Byte>, dist: nat, n: nat, most: seq<Byte>)
    requires 1 <= dist <= |out| && most == CopyMatch(out, dist, n)
    ensures CopyMatch(out, dist, n + 1) == most + [most[|most| - dist]]
  {
  }

  // Both loops leave what a byte-at-a-time copy would.
  method CopyRun(out: array<Byte>, at: nat, dist: nat, counter0: nat) returns (end: nat, full: bool)
    requires 1 <= dist <= at <= out.Length
    modifies out
    ensures full == (at + counter0 > out.Length)
    ensures end == if full then out.Length else at + counter0
    ensures out[..end] == CopyMatch(old(out[..at]), dist, end - at)
  {
    if at + counter0 > out.Length {
      end := CopyByBytes(out, at, dist, counter0);
      full := true;
    } else {
      end := CopyByThrees(out, at, dist, counter0);
      full := false;
    }
  }

  method CopyByBytes(out: array<Byte>, at: nat, dist: nat, counter0: nat) returns (end: nat)
    requires 1 <= dist <= at <= out.Length < at + counter0
    modifies out
    ensures end == out.Length && out[..end] == CopyMatch(old(out[..at]), dist, end - at)
  {
    ghost var base := out[..at];
    end := at;
    var counter := counter0;
    while counter > 0
      invariant 0 <= counter <= counter0 && end == at + counter0 - counter <= out.Length
      invariant out[..end] == CopyMatch(base, dist, end - at)
    {
      if end >= out.Length {
        return;
      }
      PutCopy(out, base, dist, end, at);
      end := end + 1;
      counter := counter - 1;
    }
  }

  // Write the byte `dist` back at `end`.
  method PutCopy(out: array<Byte>, ghost base: seq<Byte>, dist: nat, end: nat, ghost at: nat)
    requires |base| == at && 1 <= dist <= at <= end < out.Length
    requires out[..end] == CopyMatch(base, dist, end - at)
    modifies out
    ensures out[..end + 1] == CopyMatch(base, dist, end + 1 - at)
  {
    ghost var most := out[..end];
    CopyStep(base, dist, end - at, most);
    out[end] := out[end - dist];
    assert out[..end + 1] == most + [most[end - dist]];
  }

  method CopyByThrees(out: array<Byte>, at: nat, dist: nat, counter0: nat) returns (end: nat)
    requires 1 <= dist <= at && at + counter0 <= out.Length
    modifies out
    ensures end == at + counter0 && out[..end] == CopyMatch(old(out[..at]), dist, counter0)
  {
    ghost var base := out[..at];
    end := at;
    var counter := counter0;
    while counter > 2
      invariant 0 <= counter <= counter0 && end == at + counter0 - counter
      invariant out[..end] == CopyMatch(base, dist, end - at)
    {
      PutCopy(out, base, dist, end, at);
      PutCopy(out, base, dist, end + 1, at);
      PutCopy(out, base, dist, end + 2, at);
      end := end + 3;
      counter := counter - 3;
    }
    if counter > 0 {
      PutCopy(out, base, dist, end, at);
      if counter > 1 {
        PutCopy(out, base, dist, end + 1, at);
      }
      end := end + counter;
    }
  }

  datatype Status = Done | Failed | HasMoreOutput

  // Every match reaches back at least one byte and not before the start of the output.
  ghost predicate InReach(ops: seq<Op>) {
    ops == [] ||
    var last := |ops| - 1;
    InReach(ops[..last]) && (ops[last].Match? ==> 1 <= ops[last].dist <= |Expand(ops[..last])|)
  }

  lemma {:induction false} SoundInReach(ops: seq<Op>)
    requires Sound(ops)
    ensures InReach(ops)
  {
    if ops != [] {
      SoundInReach(ops[..|ops| - 1]);
    }
  }

  lemma {:induction false} InReachPrefix(ops: seq<Op>, n: nat)
    requires InReach(ops) && n <= |ops|
    ensures InReach(ops[..n])
  {
    if n < |ops| {
      InReachPrefix(ops[..|ops| - 1], n);
      assert ops[..|ops| - 1][..n] == ops[..n];
    } else {
      assert ops[..n] == ops;
    }
  }

  // One more operation done.
  lemma StepDone(ops: seq<Op>, i: nat, done: seq<Byte>, now: seq<Byte>)
    requires i < |ops| && InReach(ops[..i]) && done == Expand(ops[..i]) && now == Apply(done, ops[i])
    requires ops[i].Match? ==> 1 <= ops[i].dist <= |done|
    ensures InReach(ops[..i + 1]) && now == Expand(ops[..i + 1])
  {
    assert ops[..i + 1][..i] == ops[..i];
  }

  lemma OutOfReach(ops: seq<Op>, i: nat)
    requires i < |ops| && ops[i].Match? && !(1 <= ops[i].dist <= |Expand(ops[..i])|)
    ensures !InReach(ops)
  {
    assert ops[..i + 1][..i] == ops[..i];
    if InReach(ops) {
      InReachPrefix(ops, i + 1);
    }
  }

  // Run decoded operations into the output buffer.
  method RunOps(ops: seq<Op>, out: array<Byte>) returns (status: Status, produced: nat)
    modifies out
    ensures status == Failed ==> !InReach(ops)
    ensures status == Done <==> InReach(ops) && |Expand(ops)| <= out.Length
    ensures status == Done ==> produced <= out.Length && out[..produced] == Expand(ops)
    ensures status == HasMoreOutput && InReach(ops) ==> |Expand(ops)| > out.Length
  {
    produced := 0;
    assert ops[..0] == [] && out[..0] == [];
    for i := 0 to |ops|
      invariant produced <= out.Length && InReach(ops[..i]) && out[..produced] == Expand(ops[..i])
    {
      hide InReach, Expand, CopyMatch;
      ghost var done := out[..produced];
      if ops[i].Literal? {
        if produced == out.Length {
          TooLong(ops, i);
          return HasMoreOutput, produced;
        }
        out[produced] := ops[i].lit;
        produced := produced + 1;
        assert out[..produced] == done + [ops[i].lit];
      } else {
        if ops[i].dist == 0 || ops[i].dist > produced {
          OutOfReach(ops, i);
          return Failed, produced;
        }
        var full;
        produced, full := CopyRun(out, produced, ops[i].dist, ops[i].len);
        if full {
          TooLong(ops, i);
          return HasMoreOutput, produced;
        }
      }
      StepDone(ops, i, done, out[..produced]);
    }
    assert ops[..|ops|] == ops;
    status := Done;
  }

  lemma {:induction false} ExpandMonotone(ops: seq<Op>, n: nat)
    requires n <= |ops|
    ensures |Expand(ops[..n])| <= |Expand(ops)|
  {
    if n < |ops| {
      ExpandMonotone(ops[..|ops| - 1], n);
      assert ops[..|ops| - 1][..n] == ops[..n];
    } else {
      assert ops[..n] == ops;
    }
  }

  lemma TooLong(ops: seq<Op>, i: nat)
    requires i < |ops|
    ensures |Expand(ops)| >= |Apply(Expand(ops[..i]), ops[i])|
  {
    ExpandMonotone(ops, i + 1);
    assert ops[..i + 1][..i] == ops[..i];
  }
}
