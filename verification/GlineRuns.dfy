/** Every run of votes and expiries: what backs a G-line when it takes effect. */
module GlineRuns {
  import opened CStrings
  import opened Gline

  datatype Event =
    | Vote(kind: Kind, oper: Oper, mask: Mask, reason: CString, glined: bool, now: int)
    | Timer(now: int)

  datatype State = State(add: seq<Pending>, del: seq<Pending>)

  ghost function Of(s: State, kind: Kind): seq<Pending> {
    if kind == Add then s.add else s.del
  }

  /** The entries of one kind after an event, and whether the event placed something of that kind. */
  ghost function StepKind(l: seq<Pending>, kind: Kind, e: Event, wait: int): (seq<Pending>, Outcome) {
    var u := Unexpired(l, e.now, wait);
    if e.Vote? && e.kind == kind && !(kind == Add && e.glined) then Voted(u, e.oper, e.mask, e.reason, e.now)
    else (u, NotPlaced)
  }

  ghost function Run(es: seq<Event>, wait: int): State {
    if es == [] then State([], [])
    else
      var s, e := Run(es[..|es| - 1], wait), es[|es| - 1];
      State(StepKind(s.add, Add, e, wait).0, StepKind(s.del, Del, e, wait).0)
  }

  /** Event k makes a G-line or un-G-line take effect. */
  ghost predicate PlacedAt(es: seq<Event>, wait: int, k: nat) {
    && k < |es| && es[k].Vote?
    && StepKind(Of(Run(es[..k], wait), es[k].kind), es[k].kind, es[k], wait).1 == Placed
  }

  /** Every voter is a registered client, and so has a user name. */
  ghost predicate Registered(es: seq<Event>) {
    forall i :: 0 <= i < |es| && es[i].Vote? ==> es[i].oper.user != []
  }

  /** None of the events after i, up to and including k, comes wait or more after event i. */
  ghost predicate Alive(es: seq<Event>, wait: int, i: nat, k: nat) {
    i <= k < |es| && forall m :: i < m <= k ==> es[m].now < es[i].now + wait
  }

  ghost predicate Opens(es: seq<Event>, kind: Kind, p: Pending, i: nat) {
    i < |es| && es[i].Vote? && es[i].kind == kind && es[i].oper == p.vote1 && Stored(es[i].mask) == p.mask
  }

  ghost predicate Seconds(es: seq<Event>, kind: Kind, p: Pending, j: nat) {
    && j < |es| && es[j].Vote? && es[j].kind == kind && es[j].oper == p.vote2
    && SameMask(p.mask, es[j].mask) && !SameVoter(p.vote1, p.vote2)
  }

  /** Pending entry p rests on vote i, and on vote j if it has a second vote. */
  ghost predicate Backed(es: seq<Event>, wait: int, kind: Kind, p: Pending, i: nat, j: nat) {
    && Opens(es, kind, p, i)
    && (p.vote2.user == [] ==> j == i)
    && (p.vote2.user != [] ==> i < j && Seconds(es, kind, p, j) && Alive(es, wait, i, j))
    && j < |es| && p.last == es[j].now && Alive(es, wait, j, |es| - 1)
  }

  ghost predicate HasBacking(es: seq<Event>, wait: int, kind: Kind, p: Pending) {
    exists i, j :: Backed(es, wait, kind, p, i, j)
  }

  ghost predicate AllBacked(es: seq<Event>, wait: int, kind: Kind, l: seq<Pending>) {
    forall p <- l :: HasBacking(es, wait, kind, p)
  }

  /** What a placement at k rests on. */
  ghost predicate Majority(es: seq<Event>, wait: int, i: nat, j: nat, k: nat) {
    && i < j < k < |es| && es[i].Vote? && es[j].Vote? && es[k].Vote?
    && es[i].kind == es[j].kind == es[k].kind
    && SameMask(Stored(es[i].mask), es[j].mask) && SameMask(Stored(es[i].mask), es[k].mask)
    && !SameVoter(es[i].oper, es[j].oper) && !SameVoter(es[i].oper, es[k].oper) && !SameVoter(es[j].oper, es[k].oper)
    && Alive(es, wait, i, j) && Alive(es, wait, j, k)
  }

  lemma {:induction false} UnexpiredMembers(l: seq<Pending>, now: int, wait: int)
    ensures forall p :: p in Unexpired(l, now, wait) <==> p in l && !Expired(p, now, wait)
    ensures multiset(Unexpired(l, now, wait)) <= multiset(l)
  {
    if l != [] {
      UnexpiredMembers(l[1..], now, wait);
      assert l == [l[0]] + l[1..];
    }
  }

  /** An entry that survives the cleanup of one more event stays backed by the same votes. */
  lemma BackedStays(es: seq<Event>, e: Event, wait: int, kind: Kind, p: Pending, i: nat, j: nat)
    requires Backed(es, wait, kind, p, i, j) && !Expired(p, e.now, wait)
    ensures Backed(es + [e], wait, kind, p, i, j)
  {
    var fs := es + [e];
    assert forall m :: 0 <= m < |es| ==> fs[m] == es[m];
  }

  lemma BackedNew(es: seq<Event>, e: Event, wait: int)
    requires e.Vote?
    ensures Backed(es + [e], wait, e.kind, Pending(e.oper, NOBODY, Stored(e.mask), e.reason, e.now), |es|, |es|)
  {
  }

  lemma BackedSecond(es: seq<Event>, e: Event, wait: int, p: Pending, i: nat, j: nat)
    requires e.Vote? && e.oper.user != [] && Backed(es, wait, e.kind, p, i, j) && !Expired(p, e.now, wait)
    requires p.vote2.user == [] && SameMask(p.mask, e.mask) && !SameVoter(p.vote1, e.oper)
    ensures Backed(es + [e], wait, e.kind, p.(vote2 := e.oper, last := e.now), i, |es|)
  {
    var fs := es + [e];
    assert forall m :: 0 <= m < |es| ==> fs[m] == es[m];
  }

  /** What a vote may add to a list of entries: one new entry, or one changed in place. */
  lemma VotedMembers(u: seq<Pending>, v: Oper, m: Mask, reason: CString, now: int)
    ensures forall p <- Voted(u, v, m, reason, now).0 ::
              p in u || (Find(u, m) == |u| && p == Pending(v, NOBODY, Stored(m), reason, now))
              || (Find(u, m) < |u| && var q := u[Find(u, m)];
                  q.vote2.user == [] && !SameVoter(q.vote1, v) && p == q.(vote2 := v, last := now))
  {
    hide SameMask, SameVoter, Stored;
  }

  lemma StepBacked(es: seq<Event>, e: Event, wait: int, kind: Kind, l: seq<Pending>)
    requires AllBacked(es, wait, kind, l) && (e.Vote? ==> e.oper.user != [])
    ensures AllBacked(es + [e], wait, kind, StepKind(l, kind, e, wait).0)
  {
    var u, fs := Unexpired(l, e.now, wait), es + [e];
    UnexpiredMembers(l, e.now, wait);
    hide Backed, SameMask, SameVoter, Stored, Voted, Unexpired, Expired;
    forall p <- u ensures HasBacking(fs, wait, kind, p) {
      assert HasBacking(es, wait, kind, p);
      var i, j :| Backed(es, wait, kind, p, i, j);
      BackedStays(es, e, wait, kind, p, i, j);
    }
    if e.Vote? && e.kind == kind && !(kind == Add && e.glined) {
      VotedMembers(u, e.oper, e.mask, e.reason, e.now);
      BackedNew(es, e, wait);
      var x := Find(u, e.mask);
      if x < |u| { SecondBacked(es, e, wait, u[x]); }
    }
  }

  lemma SecondBacked(es: seq<Event>, e: Event, wait: int, p: Pending)
    requires e.Vote? && e.oper.user != [] && HasBacking(es, wait, e.kind, p) && !Expired(p, e.now, wait)
    requires SameMask(p.mask, e.mask)
    ensures p.vote2.user == [] && !SameVoter(p.vote1, e.oper) ==>
              HasBacking(es + [e], wait, e.kind, p.(vote2 := e.oper, last := e.now))
  {
    if p.vote2.user == [] && !SameVoter(p.vote1, e.oper) {
      var i, j :| Backed(es, wait, e.kind, p, i, j);
      BackedSecond(es, e, wait, p, i, j);
    }
  }

  lemma {:induction false} RunBacked(es: seq<Event>, wait: int)
    requires Registered(es)
    ensures AllBacked(es, wait, Add, Run(es, wait).add) && AllBacked(es, wait, Del, Run(es, wait).del)
  {
    if es != [] {
      var p, e := es[..|es| - 1], es[|es| - 1];
      assert es == p + [e];
      RunBacked(p, wait);
      StepBacked(p, e, wait, Add, Run(p, wait).add);
      StepBacked(p, e, wait, Del, Run(p, wait).del);
    }
  }

  /**
   * In every run, whatever takes effect rests on three votes of one kind, from pairwise different
   * user@hosts on pairwise different servers, with no expiry in between.
   */
  lemma PlacementNeedsMajority(es: seq<Event>, wait: int, k: nat)
    requires Registered(es) && PlacedAt(es, wait, k)
    ensures exists i, j :: Majority(es, wait, i, j, k)
  {
    assert Registered(es[..k]);
    RunBacked(es[..k], wait);
    hide Run, HasBacking, SameMask, SameVoter, Expired, Majority;
    var t := EntryPlaced(es, wait, k);
    assert HasBacking(es[..k], wait, es[k].kind, t);
    PlacedMajority(es, wait, k, t);
  }

  /** The entry that a placement takes off the list. */
  lemma EntryPlaced(es: seq<Event>, wait: int, k: nat) returns (t: Pending)
    requires PlacedAt(es, wait, k)
    ensures t in Of(Run(es[..k], wait), es[k].kind) && !Expired(t, es[k].now, wait)
    ensures t.vote2.user != [] && SameMask(t.mask, es[k].mask)
    ensures !SameVoter(t.vote1, es[k].oper) && !SameVoter(t.vote2, es[k].oper)
  {
    hide Run, Unexpired, Expired, SameMask, SameVoter;
    var l := Of(Run(es[..k], wait), es[k].kind);
    UnexpiredMembers(l, es[k].now, wait);
    var u := Unexpired(l, es[k].now, wait);
    t := u[Find(u, es[k].mask)];
    assert t in u;
  }

  lemma PlacedMajority(es: seq<Event>, wait: int, k: nat, t: Pending)
    requires k < |es| && es[k].Vote? && HasBacking(es[..k], wait, es[k].kind, t) && !Expired(t, es[k].now, wait)
    requires t.vote2.user != [] && SameMask(t.mask, es[k].mask)
    requires !SameVoter(t.vote1, es[k].oper) && !SameVoter(t.vote2, es[k].oper)
    ensures exists i, j :: Majority(es, wait, i, j, k)
  {
    var i, j :| Backed(es[..k], wait, es[k].kind, t, i, j);
    BackedStays(es[..k], es[k], wait, es[k].kind, t, i, j);
    assert es[..k] + [es[k]] == es[..k + 1];
    MajorityOf(es, wait, es[k].kind, t, i, j, k);
  }

  lemma MajorityOf(es: seq<Event>, wait: int, kind: Kind, t: Pending, i: nat, j: nat, k: nat)
    requires k < |es| && Backed(es[..k + 1], wait, kind, t, i, j) && t.vote2.user != [] && j < k
    requires es[k].Vote? && es[k].kind == kind && SameMask(t.mask, es[k].mask)
    requires !SameVoter(t.vote1, es[k].oper) && !SameVoter(t.vote2, es[k].oper)
    ensures Majority(es, wait, i, j, k)
  {
    var p := es[..k + 1];
    assert forall m :: 0 <= m <= k ==> p[m] == es[m];
  }

  /** The three votes are for the mask that takes effect exactly when the first voter's mask was not cut. */
  lemma MajorityOnMask(es: seq<Event>, wait: int, i: nat, j: nat, k: nat)
    requires Majority(es, wait, i, j, k)
    ensures SameMask(es[j].mask, es[k].mask)
    ensures SameMask(es[i].mask, es[k].mask) <==> Fits(es[i].mask)
  {
  }

  // ---------------------------------------------------------------- one entry for each mask

  ghost predicate UniqueMasks(l: seq<Pending>) {
    forall a, b :: 0 <= a < b < |l| ==> !SameMask(l[a].mask, l[b].mask)
  }

  lemma {:induction false} UnexpiredUnique(l: seq<Pending>, now: int, wait: int)
    requires UniqueMasks(l)
    ensures UniqueMasks(Unexpired(l, now, wait))
  {
    if l != [] {
      hide SameMask, Expired;
      UnexpiredUnique(l[1..], now, wait);
      UnexpiredMembers(l[1..], now, wait);
      var r := Unexpired(l[1..], now, wait);
      forall b | 0 <= b < |r| ensures !SameMask(l[0].mask, r[b].mask) {
        assert r[b] in l[1..];
        var c :| 0 < c < |l| && l[c] == r[b];
      }
    }
  }

  /** A vote leaves one entry for each mask if and only if it is no first vote or its mask, as stored, is free. */
  lemma VotedUnique(u: seq<Pending>, v: Oper, m: Mask, reason: CString, now: int)
    requires UniqueMasks(u)
    ensures UniqueMasks(Voted(u, v, m, reason, now).0) <==> Find(u, m) < |u| || Find(u, Stored(m)) == |u|
  {
    if Find(u, m) == |u| {
      HeadUnique(u, Pending(v, NOBODY, Stored(m), reason, now));
    } else {
      hide SameMask, SameVoter;
    }
  }

  lemma HeadUnique(u: seq<Pending>, p: Pending)
    requires UniqueMasks(u)
    ensures UniqueMasks([p] + u) <==> Find(u, p.mask) == |u|
  {
    if Find(u, p.mask) == |u| { HeadFree(u, p); } else { HeadTaken(u, p, Find(u, p.mask)); }
  }

  lemma HeadTaken(u: seq<Pending>, p: Pending, i: nat)
    requires i < |u| && SameMask(u[i].mask, p.mask)
    ensures !UniqueMasks([p] + u)
  {
    var r := [p] + u;
    MaskSwaps(p.mask, u[i].mask);
    hide SameMask;
    assert r[i + 1] == u[i];
    assert SameMask(r[0].mask, r[i + 1].mask);
  }

  lemma HeadFree(u: seq<Pending>, p: Pending)
    requires UniqueMasks(u) && Find(u, p.mask) == |u|
    ensures UniqueMasks([p] + u)
  {
    var r := [p] + u;
    assert forall b :: 0 <= b < |u| ==> !SameMask(u[b].mask, p.mask);
    hide SameMask, Find;
    forall a, b | 0 <= a < b < |r| ensures !SameMask(r[a].mask, r[b].mask) {
      if a == 0 { MaskSwaps(p.mask, u[b - 1].mask); }
    }
  }

  lemma MaskSwaps(a: Mask, b: Mask)
    ensures SameMask(a, b) == SameMask(b, a)
  {
  }

  /** No first vote comes for a mask that is pending already in the form it would be stored in. */
  ghost predicate Clear(l: seq<Pending>, e: Event, wait: int)
    requires e.Vote?
  {
    var u := Unexpired(l, e.now, wait);
    (e.kind == Add && e.glined) || Find(u, e.mask) < |u| || Find(u, Stored(e.mask)) == |u|
  }

  ghost predicate Separate(es: seq<Event>, wait: int) {
    forall k: nat :: k < |es| && es[k].Vote? ==> Clear(Of(Run(es[..k], wait), es[k].kind), es[k], wait)
  }

  ghost predicate OneEach(s: State) {
    UniqueMasks(s.add) && UniqueMasks(s.del)
  }

  lemma StepUnique(l: seq<Pending>, kind: Kind, e: Event, wait: int)
    requires UniqueMasks(l)
    ensures UniqueMasks(StepKind(l, kind, e, wait).0) <==> (e.Vote? && e.kind == kind ==> Clear(l, e, wait))
  {
    UnexpiredUnique(l, e.now, wait);
    if e.Vote? { VotedUnique(Unexpired(l, e.now, wait), e.oper, e.mask, e.reason, e.now); }
    hide UniqueMasks, Unexpired, Voted;
  }

  lemma StepOneEach(s: State, e: Event, wait: int)
    requires OneEach(s)
    ensures OneEach(State(StepKind(s.add, Add, e, wait).0, StepKind(s.del, Del, e, wait).0))
            <==> (e.Vote? ==> Clear(Of(s, e.kind), e, wait))
  {
    StepUnique(s.add, Add, e, wait);
    StepUnique(s.del, Del, e, wait);
    hide UniqueMasks, StepKind, Clear;
  }

  lemma RunSnoc(es: seq<Event>, k: nat, wait: int)
    requires k < |es|
    ensures var s := Run(es[..k], wait);
            Run(es[..k + 1], wait) == State(StepKind(s.add, Add, es[k], wait).0, StepKind(s.del, Del, es[k], wait).0)
  {
    assert es[..k + 1][..k] == es[..k];
  }

  lemma {:induction false} SeparateUnique(es: seq<Event>, wait: int, k: nat)
    requires Separate(es, wait) && k <= |es|
    ensures OneEach(Run(es[..k], wait))
  {
    if k > 0 {
      SeparateUnique(es, wait, k - 1);
      RunSnoc(es, k - 1, wait);
      hide Run, StepKind, Clear, OneEach;
      StepOneEach(Run(es[..k - 1], wait), es[k - 1], wait);
    }
  }

  /**
   * Never more than one pending entry for a mask and type, if and only if no first vote comes for a mask
   * that, cut to the buffers, is pending already.
   */
  lemma RunUnique(es: seq<Event>, wait: int)
    ensures (forall k: nat :: k <= |es| ==> OneEach(Run(es[..k], wait))) <==> Separate(es, wait)
  {
    if Separate(es, wait) {
      forall k: nat | k <= |es| ensures OneEach(Run(es[..k], wait)) { SeparateUnique(es, wait, k); }
    } else {
      var k: nat :| k < |es| && es[k].Vote? && !Clear(Of(Run(es[..k], wait), es[k].kind), es[k], wait);
      RunSnoc(es, k, wait);
      hide Run, StepKind, Clear, OneEach;
      if OneEach(Run(es[..k], wait)) { StepOneEach(Run(es[..k], wait), es[k], wait); }
    }
  }

  /** A condition on the votes alone: nobody votes on an over-long mask after a vote that is stored the same. */
  ghost predicate NoClash(es: seq<Event>) {
    forall i, j :: 0 <= i < j < |es| && es[i].Vote? && es[j].Vote? && es[i].kind == es[j].kind && !Fits(es[j].mask) ==>
      !SameMask(Stored(es[i].mask), Stored(es[j].mask))
  }

  /** Some vote of this type stored this mask. */
  ghost predicate FromVote(es: seq<Event>, kind: Kind, mask: Mask) {
    exists i :: 0 <= i < |es| && es[i].Vote? && es[i].kind == kind && Stored(es[i].mask) == mask
  }

  lemma FromVoteStays(es: seq<Event>, e: Event, kind: Kind, mask: Mask)
    requires FromVote(es, kind, mask)
    ensures FromVote(es + [e], kind, mask)
  {
    hide Stored;
    var i :| 0 <= i < |es| && es[i].Vote? && es[i].kind == kind && Stored(es[i].mask) == mask;
    assert (es + [e])[i] == es[i];
  }

  lemma FromNewVote(es: seq<Event>, e: Event)
    requires e.Vote?
    ensures FromVote(es + [e], e.kind, Stored(e.mask))
  {
    assert (es + [e])[|es|] == e;
  }

  lemma StepFromVote(es: seq<Event>, e: Event, wait: int, kind: Kind, l: seq<Pending>)
    requires forall p <- l :: FromVote(es, kind, p.mask)
    ensures forall p <- StepKind(l, kind, e, wait).0 :: FromVote(es + [e], kind, p.mask)
  {
    var u := Unexpired(l, e.now, wait);
    UnexpiredMembers(l, e.now, wait);
    hide FromVote, Unexpired, Expired;
    forall p <- u ensures FromVote(es + [e], kind, p.mask) { FromVoteStays(es, e, kind, p.mask); }
    if e.Vote? && e.kind == kind && !(kind == Add && e.glined) {
      VotedMembers(u, e.oper, e.mask, e.reason, e.now);
      FromNewVote(es, e);
      assert Find(u, e.mask) < |u| ==> u[Find(u, e.mask)] in u;
      hide Voted, SameMask, SameVoter, Stored;
    }
  }

  /** What is pending was stored by some earlier vote of its type. */
  lemma {:induction false} RunFromVotes(es: seq<Event>, wait: int, kind: Kind)
    ensures forall p <- Of(Run(es, wait), kind) :: FromVote(es, kind, p.mask)
  {
    if es != [] {
      var q, e := es[..|es| - 1], es[|es| - 1];
      assert es == q + [e];
      RunFromVotes(q, wait, kind);
      StepFromVote(q, e, wait, kind, Of(Run(q, wait), kind));
      hide StepKind, FromVote;
    }
  }

  lemma NoClashSeparate(es: seq<Event>, wait: int)
    requires NoClash(es)
    ensures Separate(es, wait)
  {
    forall k: nat | k < |es| && es[k].Vote? ensures Clear(Of(Run(es[..k], wait), es[k].kind), es[k], wait) {
      NoClashClear(es, wait, k);
    }
  }

  lemma NoClashClear(es: seq<Event>, wait: int, k: nat)
    requires NoClash(es) && k < |es| && es[k].Vote?
    ensures Clear(Of(Run(es[..k], wait), es[k].kind), es[k], wait)
  {
    var q, e := es[..k], es[k];
    var l := Of(Run(q, wait), e.kind);
    var u := Unexpired(l, e.now, wait);
    UnexpiredMembers(l, e.now, wait);
    RunFromVotes(q, wait, e.kind);
    hide Run, Unexpired, SameMask, FromVote;
    if Fits(e.mask) {
      assert Stored(e.mask) == e.mask;
    } else {
      forall x | 0 <= x < |u| ensures !SameMask(u[x].mask, Stored(e.mask)) {
        assert u[x] in l;
        VotesApart(es, k, u[x].mask);
      }
    }
  }

  lemma VotesApart(es: seq<Event>, k: nat, mask: Mask)
    requires NoClash(es) && k < |es| && es[k].Vote? && !Fits(es[k].mask) && FromVote(es[..k], es[k].kind, mask)
    ensures !SameMask(mask, Stored(es[k].mask))
  {
    hide SameMask, Stored, Fits;
    var q := es[..k];
    var i :| 0 <= i < |q| && q[i].Vote? && q[i].kind == es[k].kind && Stored(q[i].mask) == mask;
    assert es[i] == q[i];
  }

  lemma PlacedPrefix(es: seq<Event>, e: Event, wait: int, m: nat)
    requires m < |es|
    ensures PlacedAt(es + [e], wait, m) == PlacedAt(es, wait, m)
  {
    assert (es + [e])[..m] == es[..m] && (es + [e])[m] == es[m];
  }

  /** An entry left on the list by a vote that placed something is for another mask. */
  lemma PlacedElsewhere(u: seq<Pending>, v: Oper, m: Mask, reason: CString, now: int)
    requires UniqueMasks(u) && Voted(u, v, m, reason, now).1 == Placed
    ensures forall p <- Voted(u, v, m, reason, now).0 :: p in u && !SameMask(m, p.mask)
  {
    hide SameVoter, SameMask, Find, Stored;
    var i := Find(u, m);
    var r := Voted(u, v, m, reason, now).0;
    forall p <- r ensures p in u && !SameMask(m, p.mask) {
      var a :| 0 <= a < |r| && r[a] == p;
      var b := if a < i then a else a + 1;
      assert u[b] == p;
      assert !SameMask(u[if b < i then b else i].mask, u[if b < i then i else b].mask);
      MaskElsewhere(m, u[i].mask, p.mask);
    }
  }

  lemma MaskElsewhere(m: Mask, a: Mask, b: Mask)
    requires SameMask(a, m) && (!SameMask(a, b) || !SameMask(b, a))
    ensures !SameMask(m, b)
  {
  }

  /** A majority all of which was cast after the last placement for that mask. */
  ghost predicate FreshMajority(es: seq<Event>, wait: int, i: nat, j: nat, k: nat) {
    && Majority(es, wait, i, j, k)
    && forall m: nat :: i <= m < k && PlacedAt(es, wait, m) && es[m].Vote? && es[m].kind == es[k].kind ==>
         !SameMask(es[m].mask, es[k].mask)
  }

  ghost predicate HasFresh(es: seq<Event>, wait: int, k: nat) {
    exists i, j :: FreshMajority(es, wait, i, j, k)
  }

  /** A placement has no three fresh votes if the last one for the mask is less than three events back. */
  lemma TooSoon(es: seq<Event>, wait: int, k: nat, n: nat)
    requires k < n < |es| && n <= k + 2 && es[k].Vote? && es[n].Vote? && PlacedAt(es, wait, k)
    requires es[k].kind == es[n].kind && SameMask(es[k].mask, es[n].mask)
    ensures !HasFresh(es, wait, n)
  {
    hide PlacedAt, SameMask;
    forall i, j ensures !FreshMajority(es, wait, i, j, n) {}
  }

  lemma SameMaskTransfer(a: Mask, b: Mask, c: Mask)
    requires SameMask(b, c)
    ensures SameMask(a, b) == SameMask(a, c)
  {
  }

  // ---------------------------------------------------------------- masks that do not fit

  ghost function Repeat(b: byte, n: nat): (s: CString)
    requires b != 0
    ensures |s| == n && forall i :: 0 <= i < n ==> s[i] == b
  {
    seq(n, _ => b)
  }

  /** A mask one character too long, and the form it is stored in. */
  ghost function Long(host: CString): Mask {
    Mask(Repeat(0x61, USER_MASK + 1), host)
  }

  ghost function Short(host: CString): Mask {
    Mask(Repeat(0x61, USER_MASK), host)
  }

  lemma LongIsShort(host: CString)
    requires |host| <= HOST_MASK
    ensures Stored(Long(host)) == Short(host) && !SameMask(Short(host), Long(host)) && !SameMask(Long(host), Short(host))
    ensures Stored(Short(host)) == Short(host) && SameMask(Short(host), Short(host))
  {
    assert |IrcFold(Long(host).user)| != |IrcFold(Short(host).user)|;
  }

  /** A vote on a G-line at time 0. */
  ghost function Ballot(v: Oper, m: Mask): Event {
    Vote(Add, v, m, [], false, 0)
  }

  /** A pending G-line of time 0. */
  ghost function Entry(v: Oper, w: Oper, m: Mask): Pending {
    Pending(v, w, m, [], 0)
  }

  ghost predicate InTime(l: seq<Pending>, now: int, wait: int) {
    forall i :: 0 <= i < |l| ==> !Expired(l[i], now, wait)
  }

  lemma {:induction false} NoneExpired(l: seq<Pending>, now: int, wait: int)
    requires InTime(l, now, wait)
    ensures Unexpired(l, now, wait) == l
  {
    if l != [] { NoneExpired(l[1..], now, wait); }
  }

  /** One more vote while nothing of its kind expires. */
  lemma CastAt(es: seq<Event>, wait: int, l: seq<Pending>, e: Event)
    requires e.Vote? && !e.glined && Of(Run(es, wait), e.kind) == l && InTime(l, e.now, wait)
    ensures Of(Run(es + [e], wait), e.kind) == Voted(l, e.oper, e.mask, e.reason, e.now).0
    ensures PlacedAt(es + [e], wait, |es|) <==> Voted(l, e.oper, e.mask, e.reason, e.now).1 == Placed
  {
    hide Unexpired, Voted;
    NoneExpired(l, e.now, wait);
    assert (es + [e])[..|es|] == es;
  }

  /** One more vote at time 0. */
  lemma Cast(es: seq<Event>, wait: int, l: seq<Pending>, v: Oper, m: Mask)
    requires Run(es, wait).add == l && InTime(l, 0, wait)
    ensures Run(es + [Ballot(v, m)], wait).add == Voted(l, v, m, [], 0).0
    ensures PlacedAt(es + [Ballot(v, m)], wait, |es|) <==> Voted(l, v, m, [], 0).1 == Placed
  {
    CastAt(es, wait, l, Ballot(v, m));
    hide Run, PlacedAt, Voted;
  }

  /**
   * A first vote for a mask one character too long lends itself to the shorter mask: two further votes for
   * that one place it, although only two opers ever voted for it.
   */
  lemma OverlongMaskLendsItsVote(a: Oper, b: Oper, c: Oper, host: CString, wait: int)
    requires !SameVoter(a, b) && !SameVoter(a, c) && !SameVoter(b, c)
    requires b.user != [] && |host| <= HOST_MASK && wait > 0
    ensures var es := [Ballot(a, Long(host)), Ballot(b, Short(host)), Ballot(c, Short(host))];
            PlacedAt(es, wait, 2) && !SameMask(Long(host), Short(host))
  {
    var long, short := Long(host), Short(host);
    LongIsShort(host);
    assert Run([], wait).add == [];
    Cast([], wait, [], a, long);
    hide Run, PlacedAt, SameMask, SameVoter, Long, Short, Stored;
    assert [] + [Ballot(a, long)] == [Ballot(a, long)] && [Entry(a, NOBODY, short)] + [] == [Entry(a, NOBODY, short)];
    Cast([Ballot(a, long)], wait, [Entry(a, NOBODY, short)], b, short);
    assert [Ballot(a, long)] + [Ballot(b, short)] == [Ballot(a, long), Ballot(b, short)];
    Cast([Ballot(a, long), Ballot(b, short)], wait, [Entry(a, b, short)], c, short);
    assert [Ballot(a, long), Ballot(b, short)] + [Ballot(c, short)] == [Ballot(a, long), Ballot(b, short), Ballot(c, short)];
  }

  /** Two votes for the same mask, one character too long, leave two entries that are stored alike. */
  lemma OverlongMaskDoubles(a: Oper, b: Oper, host: CString, wait: int)
    requires |host| <= HOST_MASK && wait > 0
    ensures var es := [Ballot(a, Long(host)), Ballot(b, Long(host))];
            && Run(es, wait).add == [Entry(b, NOBODY, Short(host)), Entry(a, NOBODY, Short(host))]
            && !OneEach(Run(es, wait)) && !Separate(es, wait)
  {
    var long, short := Long(host), Short(host);
    var x, y := Entry(a, NOBODY, short), Entry(b, NOBODY, short);
    LongIsShort(host);
    assert Run([], wait).add == [];
    Cast([], wait, [], a, long);
    hide PlacedAt, SameMask, SameVoter, Long, Short, Stored;
    assert [] + [Ballot(a, long)] == [Ballot(a, long)] && [x] + [] == [x];
    Cast([Ballot(a, long)], wait, [x], b, long);
    var es := [Ballot(a, long), Ballot(b, long)];
    assert [Ballot(a, long)] + [Ballot(b, long)] == es && [y] + [x] == [y, x];
    assert SameMask([y, x][0].mask, [y, x][1].mask);
    assert es[..2] == es;
    hide Run, Separate;
    RunUnique(es, wait);
  }

  /** After that, four votes for the shorter mask place it twice, the second time with only two fresh votes. */
  lemma OverlongMaskPlacesTwice(a: Oper, b: Oper, c: Oper, d: Oper, e: Oper, f: Oper, host: CString, wait: int)
    requires c.user != [] && e.user != [] && |host| <= HOST_MASK && wait > 0
    requires !SameVoter(b, c) && !SameVoter(b, d) && !SameVoter(c, d)
    requires !SameVoter(a, e) && !SameVoter(a, f) && !SameVoter(e, f)
    ensures var s := Short(host);
            var es := [Ballot(a, Long(host)), Ballot(b, Long(host))]
                      + [Ballot(c, s)] + [Ballot(d, s)] + [Ballot(e, s)] + [Ballot(f, s)];
            && PlacedAt(es, wait, 3) && PlacedAt(es, wait, 5)
            && !HasFresh(es, wait, 5)
  {
    var l, s := Long(host), Short(host);
    var e2 := [Ballot(a, l), Ballot(b, l)];
    LongIsShort(host);
    OverlongMaskDoubles(a, b, host, wait);
    hide *;
    FirstOfTwo(e2, wait, a, b, c, d, s);
    var e4 := e2 + [Ballot(c, s)] + [Ballot(d, s)];
    SecondOfTwo(e4, wait, a, e, f, s);
    PlacedPrefix(e4, Ballot(e, s), wait, 3);
    PlacedPrefix(e4 + [Ballot(e, s)], Ballot(f, s), wait, 3);
    TwoBallots(e4 + [Ballot(e, s)] + [Ballot(f, s)], wait, d, f, s);
  }

  lemma TwoBallots(es: seq<Event>, wait: int, d: Oper, f: Oper, s: Mask)
    requires |es| == 6 && es[3] == Ballot(d, s) && es[5] == Ballot(f, s) && PlacedAt(es, wait, 3) && SameMask(s, s)
    ensures !HasFresh(es, wait, 5)
  {
    hide PlacedAt, SameMask;
    TooSoon(es, wait, 3, 5);
  }

  lemma SecondOfTwo(es: seq<Event>, wait: int, a: Oper, e: Oper, f: Oper, s: Mask)
    requires Run(es, wait).add == [Entry(a, NOBODY, s)] && wait > 0 && SameMask(s, s)
    requires e.user != [] && !SameVoter(a, e) && !SameVoter(a, f) && !SameVoter(e, f)
    ensures PlacedAt(es + [Ballot(e, s)] + [Ballot(f, s)], wait, |es| + 1)
  {
    hide Run, PlacedAt, SameMask, SameVoter;
    Cast(es, wait, [Entry(a, NOBODY, s)], e, s);
    Cast(es + [Ballot(e, s)], wait, [Entry(a, e, s)], f, s);
  }

  lemma FirstOfTwo(es: seq<Event>, wait: int, a: Oper, b: Oper, c: Oper, d: Oper, s: Mask)
    requires Run(es, wait).add == [Entry(b, NOBODY, s), Entry(a, NOBODY, s)] && wait > 0 && SameMask(s, s)
    requires c.user != [] && !SameVoter(b, c) && !SameVoter(b, d) && !SameVoter(c, d)
    ensures var fs := es + [Ballot(c, s)] + [Ballot(d, s)];
            Run(fs, wait).add == [Entry(a, NOBODY, s)] && PlacedAt(fs, wait, |es| + 1)
  {
    hide Run, PlacedAt, SameMask, SameVoter;
    var x, y := Entry(a, NOBODY, s), Entry(b, NOBODY, s);
    Cast(es, wait, [y, x], c, s);
    assert [y, x][0 := Entry(b, c, s)] == [Entry(b, c, s), x];
    Cast(es + [Ballot(c, s)], wait, [Entry(b, c, s), x], d, s);
  }
}
