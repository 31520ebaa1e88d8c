// The imperative half of the table-driven decoder: building the tables and reading one symbol.
module InflateSymbols {
  import opened Bits
  import opened CanonicalCode
  import opened InflateTables
  import opened InflateDecoder

  // Bit reversal as both the encoder and the decoder loop it.
  method ReverseBits(code: nat, size: nat) returns (rev: nat)
    ensures rev == Reverse(code, size)
  {
    var cur, l := code, size;
    rev := 0;
    while l > 0
      invariant 0 <= l <= size
      invariant cur == Shr(code, size - l)
      invariant rev == Reverse(code, size - l)
    {
      ShrShr(code, size - l, 1);
      assert Shr(cur, 1) == Shr(cur / 2, 0);
      rev := 2 * rev + cur % 2;
      cur := cur / 2;
      l := l - 1;
    }
  }

  // Symbols with a length of 1 up to `hi`.
  function UsedUpTo(sizes: seq<nat>, hi: nat): nat {
    if hi == 0 then 0 else UsedUpTo(sizes, hi - 1) + Count(sizes, hi)
  }

  // With at most one symbol in use the codes cannot be over-subscribed.
  lemma {:induction false} LoneFits(sizes: seq<nat>, len: nat)
    requires len >= 1 && UsedUpTo(sizes, len - 1) <= 1
    ensures FirstCode(sizes, len) <= Pow2(len - 1)
    ensures UsedUpTo(sizes, len - 1) == 0 ==> FirstCode(sizes, len) == 0
  {
    if len > 1 {
      LoneFits(sizes, len - 1);
    }
  }

  lemma {:induction false} UsedUpToMonotone(sizes: seq<nat>, a: nat, b: nat)
    requires a <= b
    ensures UsedUpTo(sizes, a) <= UsedUpTo(sizes, b)
  {
    if a < b {
      UsedUpToMonotone(sizes, a, b - 1);
    }
  }

  // Two used symbols are counted twice.
  lemma {:induction false} PairCounted(sizes: seq<nat>, s: nat, t: nat, hi: nat)
    requires s < t < |sizes| && 0 < sizes[s] <= hi && 0 < sizes[t] <= hi
    ensures UsedUpTo(sizes, hi) >= 2
  {
    CountMonotone(sizes, s + 1, t, sizes[s]);
    CountMonotone(sizes, t + 1, |sizes|, sizes[t]);
    CountMonotone(sizes, s + 1, |sizes|, sizes[s]);
    var a, b := sizes[s], sizes[t];
    if a == b {
      UsedUpToMonotone(sizes, a, hi);
      UsedUpToMonotone(sizes, 0, a - 1);
    } else if a < b {
      PairCountedApart(sizes, a, b, hi);
    } else {
      PairCountedApart(sizes, b, a, hi);
    }
  }

  lemma PairCountedApart(sizes: seq<nat>, a: nat, b: nat, hi: nat)
    requires 0 < a < b <= hi && Count(sizes, a) >= 1 && Count(sizes, b) >= 1
    ensures UsedUpTo(sizes, hi) >= 2
  {
    UsedUpToMonotone(sizes, 0, a - 1);
    UsedUpToMonotone(sizes, a, b - 1);
    UsedUpToMonotone(sizes, b, hi);
  }

  ghost predicate Lengths(sizes: seq<nat>) {
    forall i :: 0 <= i < |sizes| ==> sizes[i] <= 15
  }

  // The decoder's gate lets through exactly the lengths its tables can be built for.
  lemma GateAccepts(sizes: seq<nat>)
    requires Lengths(sizes)
    requires FirstCode(sizes, 16) == 65536 || UsedUpTo(sizes, 15) <= 1
    ensures Accepted(sizes)
  {
    if FirstCode(sizes, 16) != 65536 {
      LoneFits(sizes, 16);
      Pow2Values();
      forall s, t | Used(sizes, s) && Used(sizes, t) ensures s == t {
        if s < t {
          PairCounted(sizes, s, t, 15);
        } else if t < s {
          PairCounted(sizes, t, s, 15);
        }
      }
    }
  }

  method CountTotals(sizes: seq<nat>) returns (totals: array<nat>)
    requires Lengths(sizes)
    ensures fresh(totals) && totals.Length == 16
    ensures forall l :: 0 <= l <= 15 ==> totals[l] == Count(sizes, l)
  {
    totals := new nat[16](_ => 0);
    for i := 0 to |sizes|
      invariant forall l :: 0 <= l <= 15 ==> totals[l] == CountBelow(sizes, i, l)
    {
      totals[sizes[i]] := totals[sizes[i]] + 1;
    }
  }

  lemma CountStart(sizes: seq<nat>)
    ensures FirstCode(sizes, 1) == 0 && UsedUpTo(sizes, 0) == 0
  {
  }

  lemma CountStep(sizes: seq<nat>, len: nat)
    requires len >= 1
    ensures FirstCode(sizes, len + 1) == 2 * (FirstCode(sizes, len) + Count(sizes, len))
    ensures UsedUpTo(sizes, len) == UsedUpTo(sizes, len - 1) + Count(sizes, len)
  {
  }

  // Count the lengths, derive the first code of each, and the Kraft total.
  method CountSizes(sizes: seq<nat>) returns (nextCode: array<nat>, used: nat, total: nat)
    requires Lengths(sizes)
    ensures fresh(nextCode) && nextCode.Length == 17
    ensures forall l :: 1 <= l <= 16 ==> nextCode[l] == FirstCode(sizes, l)
    ensures total == FirstCode(sizes, 16) && used == UsedUpTo(sizes, 15)
  {
    hide CountBelow, FirstCode, UsedUpTo;
    var totals := CountTotals(sizes);
    CountStart(sizes);
    nextCode := new nat[17](_ => 0);
    used, total := 0, 0;
    for i := 1 to 16
      invariant fresh(nextCode) && forall l :: 0 <= l <= 15 ==> totals[l] == Count(sizes, l)
      invariant used == UsedUpTo(sizes, i - 1) && total == FirstCode(sizes, i)
      invariant forall l :: 1 <= l <= i ==> nextCode[l] == FirstCode(sizes, l)
    {
      CountStep(sizes, i);
      used := used + totals[i];
      total := 2 * (total + totals[i]);
      nextCode[i + 1] := total;
    }
  }

  lemma {:induction false} LowPeriod(x: nat, n: nat)
    ensures Low(x + Pow2(n), n) == Low(x, n)
  {
    if n > 0 {
      LowPeriod(x / 2, n - 1);
      assert (x + Pow2(n)) / 2 == x / 2 + Pow2(n - 1);
    }
  }

  lemma {:induction false} LowDistinct(x: nat, y: nat, n: nat)
    requires x < y < x + Pow2(n)
    ensures Low(x, n) != Low(y, n)
  {
    if n > 0 && x % 2 == y % 2 {
      LowDistinct(x / 2, y / 2, n - 1);
    }
  }

  // Write `entry` at every lookup index that starts with the `size` bits of `rev`.
  method FillFast(lookup: array<int>, rev: nat, size: nat, entry: int)
    requires lookup.Length == FAST_SIZE && rev < Pow2(size)
    modifies lookup
    ensures forall r :: 0 <= r < FAST_SIZE ==>
                          lookup[r] == if Low(r, size) == rev then entry else old(lookup[r])
  {
    var at := rev;
    LowSmall(rev, size);
    forall r | 0 <= r < rev ensures Low(r, size) != rev {
      LowSmall(r, size);
    }
    while at < FAST_SIZE
      invariant 0 <= at && Low(at, size) == rev
      invariant forall r :: 0 <= r < FAST_SIZE ==>
                              lookup[r] == if r < at && Low(r, size) == rev then entry else old(lookup[r])
    {
      lookup[at] := entry;
      forall r | at < r < at + Pow2(size) ensures Low(r, size) != rev {
        LowDistinct(at, r, size);
      }
      LowPeriod(at, size);
      at := at + Pow2(size);
    }
  }

  // One more node on the path of symbol `n` still fits in the tree array.
  lemma RoomForNode(sizes: seq<nat>, n: nat, slots: seq<Node>, d: nat, room: nat)
    requires Accepted(sizes) && SlotsOk(sizes, n + 1, slots) && room >= 2 * |sizes| && room >= 10
    requires Used(sizes, n) && FAST_BITS <= d < sizes[n]
    requires Prefix(Wire(sizes, n), d) !in slots
    requires d > FAST_BITS ==> Prefix(Wire(sizes, n), d - 1) in slots
    ensures 2 * |slots| + 2 <= room
  {
    SlotsExtend(sizes, n, slots, d);
    SlotsBounded(sizes, n + 1, slots + [Prefix(Wire(sizes, n), d)]);
  }

  // Slot `k` is where the walk for symbol `n` stands after `d` bits.
  ghost predicate At(sizes: seq<nat>, n: nat, slots: seq<Node>, k: nat, d: nat, treeCur: int) {
    Used(sizes, n) && k < |slots| && treeCur == -(2 * k + 1) && slots[k] == Prefix(Wire(sizes, n), d)
  }

  // What the walk for symbol `sym` keeps, standing at slot `k` after `d` bits.
  ghost predicate Walking(sizes: seq<nat>, sym: nat, lookup: seq<int>, tree: seq<int>, slots: seq<Node>, next: int,
                          k: nat, d: nat, treeCur: int) {
    && Growing(sizes, sym, lookup, tree, slots) && next == -(2 * |slots| + 1)
    && At(sizes, sym, slots, k, d, treeCur)
    && PathOpen(sizes, sym, d + 1, slots)
  }

  lemma PathGrows(sizes: seq<nat>, sym: nat, slots: seq<Node>, grown: seq<Node>, d: nat)
    requires Used(sizes, sym) && PathOpen(sizes, sym, d, slots) && slots <= grown
    requires Prefix(Wire(sizes, sym), d) in grown
    ensures PathOpen(sizes, sym, d + 1, grown)
  {
    forall e | FAST_BITS <= e < d + 1 ensures Prefix(Wire(sizes, sym), e) in grown {
      if e < d {
        assert Prefix(Wire(sizes, sym), e) in slots;
      }
    }
  }

  lemma MakeRoot(sizes: seq<nat>, sym: nat, lookup: seq<int>, tree: seq<int>, slots: seq<Node>)
    requires Accepted(sizes) && Used(sizes, sym) && sizes[sym] > FAST_BITS
    requires |tree| >= 2 * |sizes| && |tree| >= 10
    requires Growing(sizes, sym, lookup, tree, slots)
    requires var r := Low(Wire(sizes, sym), FAST_BITS); r < FAST_SIZE && lookup[r] == 0
    ensures var r := Low(Wire(sizes, sym), FAST_BITS);
            Walking(sizes, sym, lookup[r := -(2 * |slots| + 1)], tree, slots + [(FAST_BITS, r)],
                    -(2 * |slots| + 3), |slots|, FAST_BITS, -(2 * |slots| + 1))
  {
    RootCell(sizes, sym, lookup, slots);
    assert 2 * |slots| + 2 <= |tree| by { RoomForNode(sizes, sym, slots, FAST_BITS, |tree|); }
    AllocateRoot(sizes, sym, lookup, tree, slots);
    var c := Prefix(Wire(sizes, sym), FAST_BITS);
    assert (slots + [c])[|slots|] == c;
  }

  lemma FollowRoot(sizes: seq<nat>, sym: nat, lookup: seq<int>, tree: seq<int>, slots: seq<Node>) returns (k: nat)
    requires Accepted(sizes) && Used(sizes, sym) && sizes[sym] > FAST_BITS
    requires Growing(sizes, sym, lookup, tree, slots)
    requires var r := Low(Wire(sizes, sym), FAST_BITS); r < FAST_SIZE && lookup[r] != 0
    ensures Walking(sizes, sym, lookup, tree, slots, -(2 * |slots| + 1), k, FAST_BITS,
                    lookup[Low(Wire(sizes, sym), FAST_BITS)])
  {
    var r := Low(Wire(sizes, sym), FAST_BITS);
    RootCell(sizes, sym, lookup, slots);
    assert LookupCell(sizes, sym, slots, r, lookup[r]);
    k := FindSlot(slots, lookup[r], (FAST_BITS, r));
  }

  method OpenRoot(ghost sizes: seq<nat>, ghost sym: nat, wire: nat, lookup: array<int>, ghost tree: seq<int>,
                  treeNext: int, ghost slots: seq<Node>)
    returns (treeCur: int, next: int, ghost grown: seq<Node>, ghost k: nat)
    requires Accepted(sizes) && Used(sizes, sym) && sizes[sym] > FAST_BITS && wire == Wire(sizes, sym)
    requires |tree| >= 2 * |sizes| && |tree| >= 10
    requires lookup.Length == FAST_SIZE && Growing(sizes, sym, lookup[..], tree, slots)
    requires treeNext == -(2 * |slots| + 1)
    modifies lookup
    ensures Walking(sizes, sym, lookup[..], tree, grown, next, k, FAST_BITS, treeCur)
  {
    Pow2Values();
    next, grown := treeNext, slots;
    ghost var was := lookup[..];
    var r := Low(wire, FAST_BITS);
    treeCur := lookup[r];
    if treeCur == 0 {
      MakeRoot(sizes, sym, was, tree, slots);
      lookup[r] := next;
      assert lookup[..] == was[r := next];
      treeCur := next;
      grown := slots + [(FAST_BITS, r)];
      k := |slots|;
      next := next - 2;
    } else {
      k := FollowRoot(sizes, sym, was, tree, slots);
    }
  }

  // A present child is followed.
  lemma FollowChild(sizes: seq<nat>, sym: nat, lookup: seq<int>, tree: seq<int>, slots: seq<Node>, next: int,
                    from: nat, d: nat, at: int, i: nat)
    returns (k: nat)
    requires Accepted(sizes) && Used(sizes, sym) && FAST_BITS <= d && d + 1 < sizes[sym]
    requires Walking(sizes, sym, lookup, tree, slots, next, from, d, at)
    requires i < 2 * |slots| && CellNode(slots, i) == Prefix(Wire(sizes, sym), d + 1) && tree[i] != 0
    ensures Walking(sizes, sym, lookup, tree, slots, next, k, d + 1, tree[i])
  {
    var c := Prefix(Wire(sizes, sym), d + 1);
    InnerCell(sizes, sym, tree, slots, i, d + 1);
    k := FindSlot(slots, tree[i], c);
    PathGrows(sizes, sym, slots, slots, d + 1);
  }

  // A missing child is allocated.
  lemma MakeChild(sizes: seq<nat>, sym: nat, lookup: seq<int>, tree: seq<int>, slots: seq<Node>, next: int,
                  from: nat, d: nat, at: int, i: nat)
    requires Accepted(sizes) && Used(sizes, sym) && FAST_BITS <= d && d + 1 < sizes[sym]
    requires |tree| >= 2 * |sizes| && |tree| >= 10
    requires Walking(sizes, sym, lookup, tree, slots, next, from, d, at)
    requires i < 2 * |slots| && CellNode(slots, i) == Prefix(Wire(sizes, sym), d + 1) && tree[i] == 0
    ensures Walking(sizes, sym, lookup, tree[i := next], slots + [Prefix(Wire(sizes, sym), d + 1)],
                    next - 2, |slots|, d + 1, next)
  {
    hide LookupOk, TreeOk, SlotsOk, Grown, Wire, Low;
    var c := Prefix(Wire(sizes, sym), d + 1);
    assert c !in slots by { InnerCell(sizes, sym, tree, slots, i, d + 1); }
    assert 2 * |slots| + 2 <= |tree| by { RoomForNode(sizes, sym, slots, d + 1, |tree|); }
    AllocateInner(sizes, sym, lookup, tree, slots, i, d + 1);
    assert (slots + [c])[|slots|] == c;
    PathGrows(sizes, sym, slots, slots + [c], d + 1);
  }

  method StepDown(ghost sizes: seq<nat>, ghost sym: nat, ghost lookup: seq<int>, tree: array<int>, at: int, bit: nat,
                  treeNext: int, ghost slots: seq<Node>, ghost from: nat, ghost d: nat)
    returns (treeCur: int, next: int, ghost grown: seq<Node>, ghost k: nat)
    requires Accepted(sizes) && Used(sizes, sym) && FAST_BITS <= d && d + 1 < sizes[sym]
    requires tree.Length >= 2 * |sizes| && tree.Length >= 10
    requires Walking(sizes, sym, lookup, tree[..], slots, treeNext, from, d, at)
    requires bit == Shr(Wire(sizes, sym), d) % 2
    modifies tree
    ensures Walking(sizes, sym, lookup, tree[..], grown, next, k, d + 1, treeCur)
  {
    hide LookupOk, SlotsOk, Grown, PathOpen, Wire, Low, TreeCell;
    var i := -(at - bit) - 1;
    assert i == 2 * from + bit;
    CellIsPrefix(sizes, sym, slots, from, d);
    ghost var was := tree[..];
    next, grown := treeNext, slots;
    if tree[i] == 0 {
      MakeChild(sizes, sym, lookup, was, slots, treeNext, from, d, at, i);
      tree[i] := next;
      assert tree[..] == was[i := next];
      treeCur := next;
      grown := slots + [Prefix(Wire(sizes, sym), d + 1)];
      k := |slots|;
      next := next - 2;
    } else {
      treeCur := tree[i];
      k := FollowChild(sizes, sym, lookup, was, slots, treeNext, from, d, at, i);
    }
  }

  // Thread a symbol longer than ten bits through the overflow tree.
  method InsertLong(ghost sizes: seq<nat>, sym: nat, size: nat, wire: nat, lookup: array<int>, tree: array<int>,
                    treeNext: int, ghost slots: seq<Node>)
    returns (next: int, ghost grown: seq<Node>)
    requires Accepted(sizes) && Used(sizes, sym) && size == sizes[sym] && size > FAST_BITS && wire == Wire(sizes, sym)
    requires lookup != tree && tree.Length >= 2 * |sizes| && tree.Length >= 10
    requires Tables(sizes, sym, lookup[..], tree[..], slots) && treeNext == -(2 * |slots| + 1)
    modifies lookup, tree
    ensures Tables(sizes, sym + 1, lookup[..], tree[..], grown) && next == -(2 * |grown| + 1)
  {
    hide TreeOk, SlotsOk, Grown, PathOpen, Wire, Low;
    SlotsWiden(sizes, sym, slots);
    var treeCur;
    ghost var k;
    treeCur, next, grown, k := OpenRoot(sizes, sym, wire, lookup, tree[..], treeNext, slots);
    var rev := Shr(wire, FAST_BITS - 1);
    ghost var d: nat := FAST_BITS;
    var j := size;
    while j > FAST_BITS + 1
      invariant FAST_BITS + 1 <= j <= size && d == FAST_BITS + size - j
      invariant Walking(sizes, sym, lookup[..], tree[..], grown, next, k, d, treeCur)
      invariant rev == Shr(wire, d - 1)
    {
      HalveShr(wire, d - 1);
      rev := rev / 2;
      treeCur, next, grown, k := StepDown(sizes, sym, lookup[..], tree, treeCur, rev % 2, next, grown, k, d);
      d := d + 1;
      j := j - 1;
    }
    HalveShr(wire, d - 1);
    rev := rev / 2;
    treeCur := treeCur - rev % 2;
    FinishSymbol(sizes, sym, lookup[..], tree, treeCur, grown, next, k);
  }

  lemma LeafPlaced(sizes: seq<nat>, sym: nat, lookup: seq<int>, was: seq<int>, treeCur: int, slots: seq<Node>,
                   next: int, k: nat)
    requires Accepted(sizes) && Used(sizes, sym) && sizes[sym] > FAST_BITS
    requires var bit := Shr(Wire(sizes, sym), sizes[sym] - 1) % 2;
             Walking(sizes, sym, lookup, was, slots, next, k, sizes[sym] - 1, treeCur + bit)
    ensures 0 <= -treeCur - 1 < |was| && Tables(sizes, sym + 1, lookup, was[-treeCur - 1 := sym], slots)
  {
    hide LookupOk, SlotsOk, Grown, TreeCell, Reverse, Code, Shr, Low, Wire, Pow2;
    CellIsPrefix(sizes, sym, slots, k, sizes[sym] - 1);
    WireStartsItself(sizes, sym);
    PlaceLeaf(sizes, sym, lookup, was, slots, -treeCur - 1);
  }

  method FinishSymbol(ghost sizes: seq<nat>, sym: nat, ghost lookup: seq<int>, tree: array<int>, treeCur: int,
                      ghost slots: seq<Node>, ghost next: int, ghost k: nat)
    requires Accepted(sizes) && Used(sizes, sym) && sizes[sym] > FAST_BITS
    requires var bit := Shr(Wire(sizes, sym), sizes[sym] - 1) % 2;
             Walking(sizes, sym, lookup, tree[..], slots, next, k, sizes[sym] - 1, treeCur + bit)
    modifies tree
    ensures Tables(sizes, sym + 1, lookup, tree[..], slots)
  {
    ghost var was := tree[..];
    hide Tables, Walking, Reverse, Code, Shr, Low, Wire, Pow2;
    LeafPlaced(sizes, sym, lookup, was, treeCur, slots, next, k);
    tree[-treeCur - 1] := sym;
    assert tree[..] == was[-treeCur - 1 := sym];
  }

  lemma HalveShr(x: nat, n: nat)
    ensures Shr(x, n) / 2 == Shr(x, n + 1)
  {
    ShrShr(x, n, 1);
    assert Shr(Shr(x, n), 1) == Shr(Shr(x, n) / 2, 0);
  }

  ghost function FindSlot(slots: seq<Node>, v: int, node: Node): (k: nat)
    requires Links(v, slots, node)
    ensures k < |slots| && v == -(2 * k + 1) && slots[k] == node
  {
    var k :| 0 <= k < |slots| && v == -(2 * k + 1) && slots[k] == node;
    k
  }

  // Enter one used symbol.
  method AddSymbol(ghost sizes: seq<nat>, sym: nat, size: nat, wire: nat, lookup: array<int>, tree: array<int>,
                   treeNext: int, ghost slots: seq<Node>)
    returns (next: int, ghost grown: seq<Node>)
    requires Accepted(sizes) && Used(sizes, sym) && size == sizes[sym] && wire == Wire(sizes, sym)
    requires lookup != tree && lookup.Length == FAST_SIZE && tree.Length >= 2 * |sizes| && tree.Length >= 10
    requires Tables(sizes, sym, lookup[..], tree[..], slots) && treeNext == -(2 * |slots| + 1)
    modifies lookup, tree
    ensures Tables(sizes, sym + 1, lookup[..], tree[..], grown) && next == -(2 * |grown| + 1)
  {
    if size <= FAST_BITS {
      ghost var was := lookup[..];
      FillFast(lookup, wire, size, 512 * size + sym);
      ShortFills(sizes, sym, was, lookup[..], tree[..], slots);
      next, grown := treeNext, slots;
    } else {
      next, grown := InsertLong(sizes, sym, size, wire, lookup, tree, treeNext, slots);
    }
  }

  lemma EmptyTables(sizes: seq<nat>, lookup: seq<int>, tree: seq<int>)
    requires |lookup| == FAST_SIZE && forall i :: 0 <= i < |lookup| ==> lookup[i] == 0
    requires forall i :: 0 <= i < |tree| ==> tree[i] == 0
    ensures Tables(sizes, 0, lookup, tree, [])
  {
  }

  // Hand out the next code of the symbol's length.
  method TakeCode(sizes: seq<nat>, sym: nat, nextCode: array<nat>) returns (code: nat)
    requires Lengths(sizes) && Used(sizes, sym) && CodesNext(sizes, sym, nextCode[..])
    modifies nextCode
    ensures code == Code(sizes, sym)
    ensures CodesNext(sizes, sym + 1, nextCode[..])
  {
    code := nextCode[sizes[sym]];
    nextCode[sizes[sym]] := code + 1;
  }

  // Build both tables from the code lengths; refuse lengths that are neither complete nor lone.
  method BuildTables(sizes: seq<nat>, lookup: array<int>, tree: array<int>) returns (ok: bool, ghost slots: seq<Node>)
    requires Lengths(sizes)
    requires lookup != tree && lookup.Length == FAST_SIZE && tree.Length >= 2 * |sizes| && tree.Length >= 10
    modifies lookup, tree
    ensures ok <==> FirstCode(sizes, 16) == 65536 || UsedUpTo(sizes, 15) <= 1
    ensures ok ==> Accepted(sizes) && Tables(sizes, |sizes|, lookup[..], tree[..], slots)
  {
    slots := [];
    forall i | 0 <= i < lookup.Length {
      lookup[i] := 0;
    }
    forall i | 0 <= i < tree.Length {
      tree[i] := 0;
    }
    EmptyTables(sizes, lookup[..], tree[..]);
    var nextCode, used, total := CountSizes(sizes);
    if total != 65536 && used > 1 {
      return false, slots;
    }
    GateAccepts(sizes);
    ok := true;
    slots := EnterSymbols(sizes, nextCode, lookup, tree);
  }

  // Enter every used symbol into zeroed tables, in symbol order.
  method EnterSymbols(sizes: seq<nat>, nextCode: array<nat>, lookup: array<int>, tree: array<int>)
    returns (ghost slots: seq<Node>)
    requires Lengths(sizes) && Accepted(sizes)
    requires CodesNext(sizes, 0, nextCode[..])
    requires nextCode as object != lookup && nextCode as object != tree
    requires lookup != tree && lookup.Length == FAST_SIZE && tree.Length >= 2 * |sizes| && tree.Length >= 10
    requires Tables(sizes, 0, lookup[..], tree[..], [])
    modifies nextCode, lookup, tree
    ensures Tables(sizes, |sizes|, lookup[..], tree[..], slots)
  {
    slots := [];
    var treeNext := -1;
    for sym := 0 to |sizes|
      invariant CodesNext(sizes, sym, nextCode[..])
      invariant Tables(sizes, sym, lookup[..], tree[..], slots) && treeNext == -(2 * |slots| + 1)
    {
      treeNext, slots := EnterSymbol(sizes, sym, nextCode, lookup, tree, treeNext, slots);
    }
  }

  // The next free code of each length once the first `n` symbols have theirs.
  ghost predicate CodesNext(sizes: seq<nat>, n: nat, next: seq<nat>) {
    n <= |sizes| && |next| == 17 &&
    forall l :: 1 <= l <= 15 ==> next[l] == FirstCode(sizes, l) + CountBelow(sizes, n, l)
  }

  method EnterSymbol(sizes: seq<nat>, sym: nat, nextCode: array<nat>, lookup: array<int>, tree: array<int>,
                     treeNext: int, ghost slots: seq<Node>)
    returns (next: int, ghost grown: seq<Node>)
    requires Lengths(sizes) && Accepted(sizes) && sym < |sizes| && CodesNext(sizes, sym, nextCode[..])
    requires nextCode as object != lookup && nextCode as object != tree
    requires lookup != tree && lookup.Length == FAST_SIZE && tree.Length >= 2 * |sizes| && tree.Length >= 10
    requires Tables(sizes, sym, lookup[..], tree[..], slots) && treeNext == -(2 * |slots| + 1)
    modifies nextCode, lookup, tree
    ensures CodesNext(sizes, sym + 1, nextCode[..])
    ensures Tables(sizes, sym + 1, lookup[..], tree[..], grown) && next == -(2 * |grown| + 1)
  {
    var size := sizes[sym];
    if size == 0 {
      UnusedSkips(sizes, sym, lookup[..], tree[..], slots);
      next, grown := treeNext, slots;
    } else {
      var code := TakeCode(sizes, sym, nextCode);
      ghost var was := nextCode[..];
      var wire := ReverseBits(code, size);
      next, grown := AddSymbol(sizes, sym, size, wire, lookup, tree, treeNext, slots);
      assert nextCode[..] == was;
    }
  }
}
