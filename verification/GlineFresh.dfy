/** After a placement, when is the next one for the same mask sure to rest on three fresh votes? */
module GlineFresh {
  import opened CStrings
  import opened Gline
  import opened GlineRuns

  // ---------------------------------------------------------------- entries that rest on later votes

  /** Entry p rests on votes from event n on. */
  ghost predicate BackedFrom(es: seq<Event>, wait: int, kind: Kind, p: Pending, n: nat) {
    exists i, j :: n <= i && Backed(es, wait, kind, p, i, j)
  }

  /** All entries for this mask rest on votes from event n on. */
  ghost predicate LaterVotes(es: seq<Event>, wait: int, kind: Kind, mask: Mask, n: nat, l: seq<Pending>) {
    forall p <- l :: SameMask(p.mask, mask) ==> BackedFrom(es, wait, kind, p, n)
  }

  lemma LaterStays(es: seq<Event>, e: Event, wait: int, kind: Kind, p: Pending, n: nat)
    requires BackedFrom(es, wait, kind, p, n) && !Expired(p, e.now, wait)
    ensures BackedFrom(es + [e], wait, kind, p, n)
  {
    var i, j :| n <= i && Backed(es, wait, kind, p, i, j);
    BackedStays(es, e, wait, kind, p, i, j);
    hide Backed;
  }

  lemma LaterSecond(es: seq<Event>, e: Event, wait: int, p: Pending, n: nat)
    requires e.Vote? && e.oper.user != [] && BackedFrom(es, wait, e.kind, p, n) && !Expired(p, e.now, wait)
    requires p.vote2.user == [] && SameMask(p.mask, e.mask) && !SameVoter(p.vote1, e.oper)
    ensures BackedFrom(es + [e], wait, e.kind, p.(vote2 := e.oper, last := e.now), n)
  {
    var i, j :| n <= i && Backed(es, wait, e.kind, p, i, j);
    BackedSecond(es, e, wait, p, i, j);
    hide Backed;
  }

  lemma StepLater(es: seq<Event>, e: Event, wait: int, kind: Kind, mask: Mask, n: nat, l: seq<Pending>)
    requires LaterVotes(es, wait, kind, mask, n, l) && n <= |es| && (e.Vote? ==> e.oper.user != [])
    ensures LaterVotes(es + [e], wait, kind, mask, n, StepKind(l, kind, e, wait).0)
  {
    var u, fs := Unexpired(l, e.now, wait), es + [e];
    UnexpiredMembers(l, e.now, wait);
    hide BackedFrom, SameMask, SameVoter, Stored, Voted, Unexpired, Expired, Backed;
    forall p <- u ensures SameMask(p.mask, mask) ==> BackedFrom(fs, wait, kind, p, n) {
      if SameMask(p.mask, mask) { LaterStays(es, e, wait, kind, p, n); }
    }
    if e.Vote? && e.kind == kind && !(kind == Add && e.glined) {
      VotedMembers(u, e.oper, e.mask, e.reason, e.now);
      LaterNew(es, e, wait, n);
      var x := Find(u, e.mask);
      if x < |u| {
        assert u[x] in u;
        if SameMask(u[x].mask, mask) && u[x].vote2.user == [] && !SameVoter(u[x].vote1, e.oper) {
          LaterSecond(es, e, wait, u[x], n);
        }
      }
    }
  }

  lemma LaterNew(es: seq<Event>, e: Event, wait: int, n: nat)
    requires e.Vote? && n <= |es|
    ensures BackedFrom(es + [e], wait, e.kind, Pending(e.oper, NOBODY, Stored(e.mask), e.reason, e.now), n)
  {
    hide Backed;
    BackedNew(es, e, wait);
  }

  lemma {:induction false} RunLater(es: seq<Event>, n: nat, k: nat, wait: int, kind: Kind, mask: Mask)
    requires Registered(es) && n <= k <= |es| && LaterVotes(es[..n], wait, kind, mask, n, Of(Run(es[..n], wait), kind))
    ensures LaterVotes(es[..k], wait, kind, mask, n, Of(Run(es[..k], wait), kind))
  {
    hide LaterVotes, StepKind, Run;
    if n < k {
      RunLater(es, n, k - 1, wait, kind, mask);
      RunSnoc(es, k - 1, wait);
      assert es[..k - 1] + [es[k - 1]] == es[..k];
      StepLater(es[..k - 1], es[k - 1], wait, kind, mask, n, Of(Run(es[..k - 1], wait), kind));
    }
  }

  // ---------------------------------------------------------------- the next placement

  /** The next placement after k for the same mask and kind is at n. */
  ghost predicate PlacesAgain(es: seq<Event>, wait: int, k: nat, n: nat) {
    && k < n < |es| && es[k].Vote? && PlacedAt(es, wait, n) && es[n].kind == es[k].kind && SameMask(es[n].mask, es[k].mask)
    && forall m: nat :: k < m < n && PlacedAt(es, wait, m) && es[m].Vote? && es[m].kind == es[k].kind ==>
         !SameMask(es[m].mask, es[k].mask)
  }

  /** No entry is left for the mask that event k voted on. */
  ghost predicate NoneLeft(es: seq<Event>, wait: int, k: nat)
    requires k < |es| && es[k].Vote?
  {
    var l := Of(Run(es[..k + 1], wait), es[k].kind);
    Find(l, es[k].mask) == |l|
  }

  lemma NoneLeftLater(es: seq<Event>, wait: int, k: nat)
    requires k < |es| && es[k].Vote? && NoneLeft(es, wait, k)
    ensures LaterVotes(es[..k + 1], wait, es[k].kind, es[k].mask, k + 1, Of(Run(es[..k + 1], wait), es[k].kind))
  {
    hide Run, SameMask, BackedFrom;
    var l := Of(Run(es[..k + 1], wait), es[k].kind);
    forall p <- l ensures !SameMask(p.mask, es[k].mask) {
      var a :| 0 <= a < |l| && l[a] == p;
    }
  }

  /** If nothing is left for the mask, the next placement for it rests on three fresh votes. */
  lemma FreshAfter(es: seq<Event>, wait: int, k: nat, n: nat)
    requires Registered(es) && PlacesAgain(es, wait, k, n) && NoneLeft(es, wait, k)
    ensures HasFresh(es, wait, n)
  {
    NoneLeftLater(es, wait, k);
    RunLater(es, k + 1, n, wait, es[k].kind, es[k].mask);
    var t := EntryPlaced(es, wait, n);
    SameMaskTransfer(t.mask, es[n].mask, es[k].mask);
    LaterIsFresh(es, wait, k, n, t);
    hide *;
  }

  lemma LaterIsFresh(es: seq<Event>, wait: int, k: nat, n: nat, t: Pending)
    requires n < |es| && es[n].Vote? && PlacesAgain(es, wait, k, n) && BackedFrom(es[..n], wait, es[n].kind, t, k + 1)
    requires !Expired(t, es[n].now, wait) && t.vote2.user != [] && SameMask(t.mask, es[n].mask)
    requires !SameVoter(t.vote1, es[n].oper) && !SameVoter(t.vote2, es[n].oper)
    ensures HasFresh(es, wait, n)
  {
    hide SameVoter, SameMask, Expired, PlacedAt, Backed, FreshMajority;
    var i, j :| k + 1 <= i && Backed(es[..n], wait, es[n].kind, t, i, j);
    LaterMajority(es, wait, n, t, i, j);
    OnlyLater(es, wait, k, i, j, n);
  }

  lemma LaterMajority(es: seq<Event>, wait: int, n: nat, t: Pending, i: nat, j: nat)
    requires n < |es| && es[n].Vote? && Backed(es[..n], wait, es[n].kind, t, i, j)
    requires !Expired(t, es[n].now, wait) && t.vote2.user != [] && SameMask(t.mask, es[n].mask)
    requires !SameVoter(t.vote1, es[n].oper) && !SameVoter(t.vote2, es[n].oper)
    ensures Majority(es, wait, i, j, n)
  {
    hide SameVoter, SameMask;
    BackedStays(es[..n], es[n], wait, es[n].kind, t, i, j);
    assert es[..n] + [es[n]] == es[..n + 1];
    MajorityOf(es, wait, es[n].kind, t, i, j, n);
  }

  lemma OnlyLater(es: seq<Event>, wait: int, k: nat, i: nat, j: nat, n: nat)
    requires n < |es| && es[n].Vote? && PlacesAgain(es, wait, k, n) && k < i && Majority(es, wait, i, j, n)
    ensures FreshMajority(es, wait, i, j, n)
  {
    hide PlacedAt, Majority, SameMask;
    forall m: nat | i <= m < n && PlacedAt(es, wait, m) && es[m].Vote? && es[m].kind == es[n].kind
      ensures !SameMask(es[m].mask, es[n].mask)
    {
      SameMaskTransfer(es[m].mask, es[n].mask, es[k].mask);
    }
  }

  // ---------------------------------------------------------------- an entry that is left

  /** An oper whose names are longer than n characters. */
  ghost function Stranger(n: nat): Oper {
    Oper(Repeat(0x61, n + 1), [], Repeat(0x61, n + 1))
  }

  lemma StrangerIsNew(v: Oper, n: nat)
    requires |v.user| <= n && |v.server| <= n
    ensures !SameVoter(v, Stranger(n)) && Stranger(n).user != []
  {
    assert |IrcFold(v.user)| < |IrcFold(Stranger(n).user)| && |IrcFold(v.server)| < |IrcFold(Stranger(n).server)|;
  }

  /** What is pending after an event has not expired at its time. */
  lemma StillInTime(es: seq<Event>, wait: int, kind: Kind)
    requires es != [] && wait > 0
    ensures InTime(Of(Run(es, wait), kind), es[|es| - 1].now, wait)
  {
    var e := es[|es| - 1];
    var l := Of(Run(es[..|es| - 1], wait), kind);
    var u := Unexpired(l, e.now, wait);
    UnexpiredMembers(l, e.now, wait);
    if e.Vote? { VotedMembers(u, e.oper, e.mask, e.reason, e.now); }
    var r := StepKind(l, kind, e, wait).0;
    assert Of(Run(es, wait), kind) == r;
    hide Run, Unexpired, Voted, SameMask, SameVoter, Stored, Find;
    forall i | 0 <= i < |r| ensures !Expired(r[i], e.now, wait) { assert r[i] in r; }
  }

  /** A vote like the last one, by another oper. */
  ghost function Again(e: Event, v: Oper): Event
    requires e.Vote?
  {
    Vote(e.kind, v, e.mask, [], false, e.now)
  }

  /** With two votes in it, the entry that is left needs only one more. */
  lemma OneMore(es: seq<Event>, wait: int, l: seq<Pending>, e: Event, v: Oper)
    requires es != [] && wait > 0 && e.Vote? && e.now == es[|es| - 1].now && Of(Run(es, wait), e.kind) == l
    requires Find(l, e.mask) < |l| && l[Find(l, e.mask)].vote2.user != []
    requires !SameVoter(l[Find(l, e.mask)].vote1, v) && !SameVoter(l[Find(l, e.mask)].vote2, v)
    ensures PlacedAt(es + [Again(e, v)], wait, |es|)
  {
    hide Run, PlacedAt, SameVoter, SameMask, Find;
    StillInTime(es, wait, e.kind);
    CastAt(es, wait, l, Again(e, v));
  }

  /** With one vote in it, it takes a second one first. */
  lemma FirstOfMore(es: seq<Event>, wait: int, l: seq<Pending>, e: Event, v: Oper)
    requires es != [] && wait > 0 && e.Vote? && e.now == es[|es| - 1].now && Of(Run(es, wait), e.kind) == l
    requires Find(l, e.mask) < |l| && l[Find(l, e.mask)].vote2.user == [] && !SameVoter(l[Find(l, e.mask)].vote1, v)
    ensures var x := Find(l, e.mask);
            var r := l[x := l[x].(vote2 := v, last := e.now)];
            Of(Run(es + [Again(e, v)], wait), e.kind) == r && Find(r, e.mask) == x
    ensures !PlacedAt(es + [Again(e, v)], wait, |es|)
  {
    var x := Find(l, e.mask);
    var r := l[x := l[x].(vote2 := v, last := e.now)];
    hide Run, PlacedAt, SameVoter, SameMask;
    StillInTime(es, wait, e.kind);
    CastAt(es, wait, l, Again(e, v));
    assert forall i :: 0 <= i < |l| ==> r[i].mask == l[i].mask;
  }

  /** In every continuation the next placement for the mask placed last rests on three fresh votes. */
  ghost predicate StaysFresh(es: seq<Event>, wait: int)
    requires es != []
  {
    forall fs: seq<Event>, n: nat ::
      Registered(es + fs) && PlacesAgain(es + fs, wait, |es| - 1, n) ==> HasFresh(es + fs, wait, n)
  }

  lemma LeftPlacesStale(es: seq<Event>, wait: int)
    requires Registered(es) && wait > 0 && es != [] && PlacedAt(es, wait, |es| - 1) && !NoneLeft(es, wait, |es| - 1)
    ensures !StaysFresh(es, wait)
  {
    var k := |es| - 1;
    var e := es[k];
    assert es[..k + 1] == es;
    var l := Of(Run(es, wait), e.kind);
    var p := l[Find(l, e.mask)];
    var n := |p.vote1.user| + |p.vote1.server| + |p.vote2.user| + |p.vote2.server|;
    StrangerIsNew(p.vote1, n);
    StrangerIsNew(p.vote2, n);
    StrangerIsNew(p.vote1, n + 1);
    StrangerIsNew(Stranger(n), n + 1);
    hide Run, PlacedAt, SameVoter, SameMask, Find, Stranger, StaysFresh, HasFresh;
    if p.vote2.user != [] {
      OneMore(es, wait, l, e, Stranger(n));
      StaleAtOnce(es, wait, Again(e, Stranger(n)));
    } else {
      FirstOfMore(es, wait, l, e, Stranger(n));
      var fs := es + [Again(e, Stranger(n))];
      OneMore(fs, wait, Of(Run(fs, wait), e.kind), e, Stranger(n + 1));
      StaleAfterTwo(es, wait, Again(e, Stranger(n)), Again(e, Stranger(n + 1)));
    }
  }

  /** A registered oper's vote for what the last event of es was for. */
  ghost predicate Repeats(es: seq<Event>, e: Event) {
    && es != [] && es[|es| - 1].Vote? && e.Vote? && e.oper.user != []
    && e.kind == es[|es| - 1].kind && e.mask == es[|es| - 1].mask
  }

  lemma StaleAtOnce(es: seq<Event>, wait: int, e: Event)
    requires Registered(es) && Repeats(es, e) && PlacedAt(es, wait, |es| - 1) && PlacedAt(es + [e], wait, |es|)
    ensures !StaysFresh(es, wait)
  {
    hide StaysFresh, PlacedAt;
    PlacedPrefix(es, e, wait, |es| - 1);
    StaleLater(es, [e], wait);
  }

  lemma StaleAfterTwo(es: seq<Event>, wait: int, e: Event, f: Event)
    requires Registered(es) && Repeats(es, e) && Repeats(es, f) && PlacedAt(es, wait, |es| - 1)
    requires !PlacedAt(es + [e], wait, |es|) && PlacedAt(es + [e] + [f], wait, |es| + 1)
    ensures !StaysFresh(es, wait)
  {
    hide StaysFresh, PlacedAt;
    PlacedPrefix(es, e, wait, |es| - 1);
    PlacedPrefix(es + [e], f, wait, |es| - 1);
    PlacedPrefix(es + [e], f, wait, |es|);
    assert es + [e] + [f] == es + ([e] + [f]);
    StaleLater(es, [e] + [f], wait);
  }

  /** A placement one or two votes after the last event of es, which placed the same mask. */
  lemma StaleLater(es: seq<Event>, fs: seq<Event>, wait: int)
    requires Registered(es) && es != [] && 1 <= |fs| <= 2 && forall f <- fs :: Repeats(es, f)
    requires PlacedAt(es + fs, wait, |es| - 1) && PlacedAt(es + fs, wait, |es + fs| - 1)
    requires |fs| == 2 ==> !PlacedAt(es + fs, wait, |es|)
    ensures !StaysFresh(es, wait)
  {
    hide PlacedAt, HasFresh;
    var g, k, n := es + fs, |es| - 1, |es + fs| - 1;
    assert g[k] == es[k] && g[|es|] == fs[0] && g[n] == fs[|fs| - 1];
    assert Repeats(es, fs[0]) && Repeats(es, fs[|fs| - 1]);
    TooSoon(g, wait, k, n);
    assert Registered(g) && PlacesAgain(g, wait, k, n);
  }

  /**
   * After a placement, the next one for the same mask rests on three fresh votes in every continuation if and
   * only if no other entry for that mask is left.
   */
  lemma FreshExactly(es: seq<Event>, wait: int)
    requires Registered(es) && wait > 0 && es != [] && PlacedAt(es, wait, |es| - 1)
    ensures StaysFresh(es, wait) <==> NoneLeft(es, wait, |es| - 1)
  {
    var k := |es| - 1;
    if NoneLeft(es, wait, k) {
      hide PlacedAt, HasFresh;
      forall fs: seq<Event>, n: nat | Registered(es + fs) && PlacesAgain(es + fs, wait, k, n)
        ensures HasFresh(es + fs, wait, n)
      {
        assert (es + fs)[..k + 1] == es[..k + 1] && (es + fs)[k] == es[k];
        FreshAfter(es + fs, wait, k, n);
      }
    } else {
      LeftPlacesStale(es, wait);
    }
  }

  // ---------------------------------------------------------------- runs with one entry for each mask

  lemma SeparateLeavesNone(es: seq<Event>, wait: int, k: nat)
    requires Separate(es, wait) && PlacedAt(es, wait, k)
    ensures NoneLeft(es, wait, k)
  {
    var e := es[k];
    var l := Of(Run(es[..k], wait), e.kind);
    SeparateUnique(es, wait, k);
    UnexpiredUnique(l, e.now, wait);
    RunSnoc(es, k, wait);
    var u := Unexpired(l, e.now, wait);
    PlacedElsewhere(u, e.oper, e.mask, e.reason, e.now);
    var r := Voted(u, e.oper, e.mask, e.reason, e.now).0;
    assert Of(Run(es[..k + 1], wait), e.kind) == r;
    hide Run, Unexpired, Voted, SameMask;
    var x := Find(r, e.mask);
    if x < |r| {
      assert r[x] in r;
      MaskSwaps(e.mask, r[x].mask);
    }
  }

  /** The last placement before m for the mask and kind of event n, or -1. */
  lemma LastPlacement(es: seq<Event>, wait: int, n: nat, m: nat) returns (k: int)
    requires m <= n < |es| && es[n].Vote?
    ensures -1 <= k < m
    ensures k >= 0 ==> PlacedAt(es, wait, k) && es[k].Vote? && es[k].kind == es[n].kind && SameMask(es[k].mask, es[n].mask)
    ensures forall i: nat :: k < i < m && PlacedAt(es, wait, i) && es[i].Vote? && es[i].kind == es[n].kind ==>
              !SameMask(es[i].mask, es[n].mask)
  {
    hide PlacedAt, SameMask;
    k := m - 1;
    while k >= 0 && !(PlacedAt(es, wait, k) && es[k].Vote? && es[k].kind == es[n].kind && SameMask(es[k].mask, es[n].mask))
      invariant -1 <= k < m
      invariant forall i: nat :: k < i < m && PlacedAt(es, wait, i) && es[i].Vote? && es[i].kind == es[n].kind ==>
                  !SameMask(es[i].mask, es[n].mask)
    {
      k := k - 1;
    }
  }

  /** In every run with one entry for each mask, whatever is placed rests on three fresh votes. */
  lemma PlacementNeedsFreshMajority(es: seq<Event>, wait: int, n: nat)
    requires Registered(es) && Separate(es, wait) && PlacedAt(es, wait, n)
    ensures HasFresh(es, wait, n)
  {
    var k := LastPlacement(es, wait, n, n);
    if k < 0 {
      PlacementNeedsMajority(es, wait, n);
      hide PlacedAt, Majority, SameMask;
      var i, j :| Majority(es, wait, i, j, n);
      assert FreshMajority(es, wait, i, j, n);
    } else {
      SeparateLeavesNone(es, wait, k);
      LastIsPrevious(es, wait, k, n);
      FreshAfter(es, wait, k, n);
    }
  }

  lemma LastIsPrevious(es: seq<Event>, wait: int, k: nat, n: nat)
    requires k < n < |es| && es[k].Vote? && es[n].Vote? && PlacedAt(es, wait, n)
    requires es[k].kind == es[n].kind && SameMask(es[k].mask, es[n].mask)
    requires forall i: nat :: k < i < n && PlacedAt(es, wait, i) && es[i].Vote? && es[i].kind == es[n].kind ==>
               !SameMask(es[i].mask, es[n].mask)
    ensures PlacesAgain(es, wait, k, n)
  {
    hide PlacedAt, SameMask;
    MaskSwaps(es[k].mask, es[n].mask);
    forall m: nat | k < m < n && PlacedAt(es, wait, m) && es[m].Vote? && es[m].kind == es[k].kind
      ensures !SameMask(es[m].mask, es[k].mask)
    {
      SameMaskTransfer(es[m].mask, es[n].mask, es[k].mask);
    }
  }
}
