// The QR-set generator of bcur_create_qr_icons(), main/bcur.c: a filtered and verified set of parts, or exactly the
// plain set of a fresh encoder.
module QrSet {

  const FILTER_MAX_PULLS := 2000
  const FILTER_MAX_EXTRA_ICONS := 100

  // BCUR_NUM_FRAGMENTS()
  function NumFragments(pure: nat): (n: nat)
    ensures n >= pure
  {
    if pure <= 300 then 4 * pure / 3 else pure + 100
  }

  // bc-ur's encoder: started afresh it always yields the same stream of parts.
  class Encoder {
    const stream: nat -> string
    var next: nat

    constructor (stream: nat -> string)
      ensures this.stream == stream && next == 0
    {
      this.stream := stream;
      next := 0;
    }

    method NextPart() returns (part: string)
      modifies this
      ensures part == stream(old(next)) && next == old(next) + 1
    {
      part := stream(next);
      next := next + 1;
    }

    method Restart()
      modifies this
      ensures next == 0
    {
      next := 0;
    }
  }

  function Firsts(stream: nat -> string, n: nat): (r: seq<string>)
    ensures |r| == n && forall i :: 0 <= i < n ==> r[i] == stream(i)
  {
    seq(n, (i: nat) => stream(i))
  }

  // A part that may be shown while filtering.
  predicate Showable(part: string, capacity: nat) {
    'I' !in part && |part| <= capacity
  }

  // The showable parts among the first n, in order.
  function Kept(stream: nat -> string, capacity: nat, n: nat): (r: seq<string>)
    ensures |r| <= n && forall i :: 0 <= i < |r| ==> Showable(r[i], capacity)
  {
    if n == 0 then []
    else Kept(stream, capacity, n - 1) + (if Showable(stream(n - 1), capacity) then [stream(n - 1)] else [])
  }

  lemma {:induction false} KeptGrows(stream: nat -> string, capacity: nat, m: nat, n: nat)
    requires m <= n
    ensures |Kept(stream, capacity, m)| <= |Kept(stream, capacity, n)|
    ensures Kept(stream, capacity, n)[..|Kept(stream, capacity, m)|] == Kept(stream, capacity, m)
  {
    if m < n {
      KeptGrows(stream, capacity, m, n - 1);
    }
  }

  // Some prefix of the set is enough for a decoder started afresh.
  ghost predicate Verified(icons: seq<string>, decodes: seq<string> -> bool) {
    exists k :: 1 <= k <= |icons| && decodes(icons[..k])
  }

  // A set worth showing: within the icon array, long enough, and proven to decode.
  ghost predicate Worthy(icons: seq<string>, decodes: seq<string> -> bool, atLeast: nat) {
    atLeast <= |icons| <= atLeast + FILTER_MAX_EXTRA_ICONS && Verified(icons, decodes)
  }

  function Max(a: nat, b: nat): nat {
    if a < b then b else a
  }

  // The third on top of the parts the decoder needed, never under the plain count.
  function Target(essential: nat, n: nat): nat {
    Max(n, essential + (essential + 2) / 3)
  }

  // What a filtering attempt leaves: the showable parts pulled so far, whether a prefix has decoded and how long
  // the set should become.
  ghost predicate Attempt(stream: nat -> string, capacity: nat, n: nat, decodes: seq<string> -> bool, pulls: nat,
                          icons: seq<string>, verified: bool, target: nat) {
    && icons == Kept(stream, capacity, pulls)
    && (verified <==> Verified(icons, decodes))
    && (!verified ==> target == n)
    && (verified ==> exists k :: 1 <= k <= |icons| && decodes(icons[..k]) && target == Target(k, n) &&
                       forall j :: 1 <= j < k ==> !decodes(icons[..j]))
  }

  lemma AttemptSkips(stream: nat -> string, capacity: nat, n: nat, decodes: seq<string> -> bool, pulls: nat,
                     icons: seq<string>, verified: bool, target: nat)
    requires Attempt(stream, capacity, n, decodes, pulls, icons, verified, target) && !Showable(stream(pulls), capacity)
    ensures Attempt(stream, capacity, n, decodes, pulls + 1, icons, verified, target)
  {
    assert icons + [] == icons;
  }

  lemma AttemptKeeps(stream: nat -> string, capacity: nat, n: nat, decodes: seq<string> -> bool, pulls: nat,
                     icons: seq<string>, verified: bool, target: nat)
    requires Attempt(stream, capacity, n, decodes, pulls, icons, verified, target) && Showable(stream(pulls), capacity)
    ensures var more := icons + [stream(pulls)];
            var now := verified || decodes(more);
            Attempt(stream, capacity, n, decodes, pulls + 1, more, now,
                    if verified || !now then target else Target(|more|, n))
  {
    var part := stream(pulls);
    var more := icons + [part];
    assert more[..|more|] == more;
    assert forall k :: 0 <= k <= |icons| ==> more[..k] == icons[..k];
    if verified {
      var k :| 1 <= k <= |icons| && decodes(icons[..k]) && target == Target(k, n) &&
               forall j :: 1 <= j < k ==> !decodes(icons[..j]);
      assert decodes(more[..k]);
    } else if decodes(more) {
      assert decodes(more[..|more|]);
    }
  }

  class Generator {
    const icons: array<string>    // the icon array: what each code shows
    var made: nat
    ghost var pullsAll: nat       // parts pulled over all attempts

    constructor (maxIcons: nat)
      ensures fresh(icons) && icons.Length == maxIcons && made == 0 && pullsAll == 0
    {
      icons := new string[maxIcons](_ => "");
      made, pullsAll := 0, 0;
    }

    ghost function Shown(): seq<string>
      requires made <= icons.Length
      reads this, icons
    {
      icons[..made]
    }

    method Paint(part: string)
      requires made < icons.Length
      modifies this`made, icons
      ensures made == old(made) + 1 && Shown() == old(Shown()) + [part]
    {
      icons[made] := part;
      made := made + 1;
    }

    // One pull of the filtering attempt: drop the part, or show it and feed it to the decoder.
    method PullOne(encoder: Encoder, capacity: nat, n: nat, decodes: seq<string> -> bool, verified0: bool, target0: nat)
      returns (verified: bool, target: nat)
      requires made < icons.Length
      requires Attempt(encoder.stream, capacity, n, decodes, encoder.next, Shown(), verified0, target0)
      modifies this`made, icons, encoder
      ensures old(made) <= made <= old(made) + 1 && encoder.next == old(encoder.next) + 1
      ensures Attempt(encoder.stream, capacity, n, decodes, encoder.next, Shown(), verified, target)
    {
      hide Attempt, Showable, Target;
      ghost var was, stream, pulls := Shown(), encoder.stream, encoder.next;
      verified, target := verified0, target0;
      var part := encoder.NextPart();
      if 'I' in part || |part| > capacity {
        NotShowable(part, capacity);
        AttemptSkips(stream, capacity, n, decodes, pulls, was, verified, target);
        assert Shown() == was;
        return;
      }
      IsShowable(part, capacity);
      AttemptKeeps(stream, capacity, n, decodes, pulls, was, verified, target);
      if !verified {
        verified := decodes(icons[..made] + [part]);
        if verified {
          var essential := made + 1;
          target := essential + (essential + 2) / 3;
          if target < n {
            target := n;
          }
          TargetIs(essential, n);
        }
      }
      Paint(part);
    }

    // The filtering attempt: true when its set is to be shown.
    method Filtered(encoder: Encoder, capacity: nat, n: nat, decodes: seq<string> -> bool) returns (ok: bool)
      requires icons.Length == n + FILTER_MAX_EXTRA_ICONS && made == 0 && encoder.next == 0 && pullsAll == 0
      modifies this, icons, encoder
      ensures made <= icons.Length && pullsAll == encoder.next <= FILTER_MAX_PULLS
      ensures Shown() == Kept(encoder.stream, capacity, encoder.next)
      ensures ok ==> Worthy(Shown(), decodes, n)
      ensures ok ==> exists k :: 1 <= k <= made && decodes(Shown()[..k]) &&
                       (made >= Target(k, n) || made == icons.Length || encoder.next == FILTER_MAX_PULLS)
      ensures ok <==> exists p: nat :: p <= FILTER_MAX_PULLS && Worthy(Kept(encoder.stream, capacity, p), decodes, n)
    {
      hide Attempt, Worthy, Kept, Verified, Target;
      var pulls: nat, verified, target: nat := 0, false, n;
      assert Shown() == [];
      AttemptStarts(encoder.stream, capacity, n, decodes);
      while pulls < FILTER_MAX_PULLS && made < icons.Length && !(verified && made >= target)
        invariant made <= icons.Length && pulls == encoder.next == pullsAll <= FILTER_MAX_PULLS
        invariant Attempt(encoder.stream, capacity, n, decodes, pulls, Shown(), verified, target)
        decreases FILTER_MAX_PULLS - pulls
      {
        verified, target := PullOne(encoder, capacity, n, decodes, verified, target);
        pulls, pullsAll := pulls + 1, pullsAll + 1;
      }
      ok := verified && made >= n;
      AttemptEnds(encoder.stream, capacity, n, decodes, pulls, Shown(), verified, target);
      if !ok {
        NoneWorthy(encoder.stream, capacity, n, decodes, pulls, Shown(), verified);
      }
    }

    // The plain loop: the next n parts, whatever they are.
    method Plain(encoder: Encoder, capacity: nat, n: nat)
      requires icons.Length >= n && made == 0 && encoder.next == 0
      requires forall i: nat :: i < n ==> |encoder.stream(i)| <= capacity
      modifies this, icons, encoder
      ensures made == n && Shown() == Firsts(encoder.stream, n) && pullsAll == old(pullsAll) + n
    {
      var pulls: nat := 0;
      while pulls < n
        invariant made == pulls == encoder.next <= n && pullsAll == old(pullsAll) + pulls
        invariant Shown() == Firsts(encoder.stream, pulls)
      {
        var part := encoder.NextPart();
        pulls, pullsAll := pulls + 1, pullsAll + 1;
        assert |part| <= capacity;
        Paint(part);
      }
    }

    // The whole loop. A set is filtered and verified, or the plain one; which one is decided by whether any worthy
    // set exists within the caps.
    method Create(encoder: Encoder, filter: bool, capacity: nat, pure: nat, decodes: seq<string> -> bool)
      returns (degraded: bool)
      requires made == 0 && encoder.next == 0 && pullsAll == 0
      requires icons.Length == NumFragments(pure) + (if filter then FILTER_MAX_EXTRA_ICONS else 0)
      requires forall i: nat :: i < NumFragments(pure) ==> |encoder.stream(i)| <= capacity
      modifies this, icons, encoder
      ensures pure <= made <= icons.Length && pullsAll <= FILTER_MAX_PULLS + NumFragments(pure)
      ensures var n := if pure <= 300 then 4 * pure / 3 else pure + 100;
              && pullsAll <= n + 2000
              && (if filter && !degraded then n <= made <= n + 100 else made == n)
      ensures filter && !degraded ==> Worthy(Shown(), decodes, NumFragments(pure))
      ensures filter && !degraded ==> forall i :: 0 <= i < made ==> 'I' !in icons[i] && |icons[i]| <= capacity
      ensures !filter || degraded ==> Shown() == Firsts(encoder.stream, NumFragments(pure))
      ensures degraded <==> filter && forall p: nat :: p <= FILTER_MAX_PULLS ==>
                                  !Worthy(Kept(encoder.stream, capacity, p), decodes, NumFragments(pure))
    {
      degraded := false;
      var n := NumFragments(pure);
      if filter {
        var ok := Filtered(encoder, capacity, n, decodes);
        if ok {
          assert forall i :: 0 <= i < made ==> icons[i] == Shown()[i] && Showable(Shown()[i], capacity);
          return;
        }
        made := 0;
        degraded := true;
        encoder.Restart();
      }
      Plain(encoder, capacity, n);
    }
  }

  lemma AttemptStarts(stream: nat -> string, capacity: nat, n: nat, decodes: seq<string> -> bool)
    ensures Attempt(stream, capacity, n, decodes, 0, [], false, n)
  {
  }

  lemma TargetIs(essential: nat, n: nat)
    ensures Target(essential, n) == Max(n, essential + (essential + 2) / 3)
  {
  }

  lemma NotShowable(part: string, capacity: nat)
    requires 'I' in part || |part| > capacity
    ensures !Showable(part, capacity)
  {
  }

  lemma IsShowable(part: string, capacity: nat)
    requires 'I' !in part && |part| <= capacity
    ensures Showable(part, capacity)
  {
  }

  lemma AttemptEnds(stream: nat -> string, capacity: nat, n: nat, decodes: seq<string> -> bool, pulls: nat,
                    icons: seq<string>, verified: bool, target: nat)
    requires Attempt(stream, capacity, n, decodes, pulls, icons, verified, target) && pulls <= FILTER_MAX_PULLS
    requires |icons| <= n + FILTER_MAX_EXTRA_ICONS
    ensures icons == Kept(stream, capacity, pulls) && (verified <==> Verified(icons, decodes)) && target >= n
    ensures verified && |icons| >= n ==> Worthy(icons, decodes, n)
    ensures verified ==> exists k :: 1 <= k <= |icons| && decodes(icons[..k]) && target == Target(k, n)
  {
  }

  // A worthy set at any number of pulls leaves a worthy set where the attempt stopped, if it stopped at a cap.
  lemma WorthyCarries(stream: nat -> string, capacity: nat, n: nat, decodes: seq<string> -> bool, pulls: nat, p: nat)
    requires Worthy(Kept(stream, capacity, p), decodes, n) && p <= FILTER_MAX_PULLS
    requires |Kept(stream, capacity, pulls)| <= n + FILTER_MAX_EXTRA_ICONS
    requires pulls >= FILTER_MAX_PULLS || |Kept(stream, capacity, pulls)| == n + FILTER_MAX_EXTRA_ICONS
    ensures Verified(Kept(stream, capacity, pulls), decodes) && |Kept(stream, capacity, pulls)| >= n
  {
    hide Kept;
    var icons, other := Kept(stream, capacity, pulls), Kept(stream, capacity, p);
    var k :| 1 <= k <= |other| && decodes(other[..k]);
    if p <= pulls {
      KeptGrows(stream, capacity, p, pulls);
      assert icons[..k] == other[..k];
    } else {
      KeptGrows(stream, capacity, pulls, p);
      assert icons == other;
    }
  }

  lemma NoneWorthy(stream: nat -> string, capacity: nat, n: nat, decodes: seq<string> -> bool, pulls: nat,
                   icons: seq<string>, verified: bool)
    requires icons == Kept(stream, capacity, pulls) && (verified <==> Verified(icons, decodes))
    requires |icons| <= n + FILTER_MAX_EXTRA_ICONS
    requires pulls >= FILTER_MAX_PULLS || |icons| == n + FILTER_MAX_EXTRA_ICONS
    requires !(verified && |icons| >= n)
    ensures forall p: nat :: p <= FILTER_MAX_PULLS ==> !Worthy(Kept(stream, capacity, p), decodes, n)
  {
    hide Kept, Worthy, Verified;
    forall p: nat | p <= FILTER_MAX_PULLS ensures !Worthy(Kept(stream, capacity, p), decodes, n) {
      if Worthy(Kept(stream, capacity, p), decodes, n) {
        WorthyCarries(stream, capacity, n, decodes, pulls, p);
      }
    }
  }
}
