/** Who and what stands behind a G-line that takes effect, written out. */
module GlineLaws {
  import opened CStrings
  import opened Gline
  import opened GlineRuns
  import opened GlineFresh

  /** Two opers on different servers, who differ in user name or host. */
  ghost predicate TwoPeople(a: Oper, b: Oper) {
    && IrcFold(a.server) != IrcFold(b.server)
    && (IrcFold(a.user) != IrcFold(b.user) || IrcFold(a.host) != IrcFold(b.host))
  }

  ghost function UpTo(s: CString, n: nat): CString {
    if |s| > n then s[..n] else s
  }

  /** No event after i up to k comes wait or more after it. */
  ghost predicate InTimeOf(es: seq<Event>, wait: int, i: nat, k: nat) {
    i < k < |es| && forall m :: i < m <= k ==> es[m].now < es[i].now + wait
  }

  /**
   * Votes i, j and k: of one type, by three people on three servers, in time; j and k for one mask, and i for
   * one that begins like it.
   */
  ghost predicate Supported(es: seq<Event>, wait: int, i: nat, j: nat, k: nat) {
    && i < j < k < |es| && es[i].Vote? && es[j].Vote? && es[k].Vote? && es[i].kind == es[j].kind == es[k].kind
    && TwoPeople(es[i].oper, es[j].oper) && TwoPeople(es[i].oper, es[k].oper) && TwoPeople(es[j].oper, es[k].oper)
    && IrcFold(es[j].mask.user) == IrcFold(es[k].mask.user) && IrcFold(es[j].mask.host) == IrcFold(es[k].mask.host)
    && IrcFold(UpTo(es[i].mask.user, 81)) == IrcFold(es[k].mask.user)
    && IrcFold(UpTo(es[i].mask.host, 127)) == IrcFold(es[k].mask.host)
    && InTimeOf(es, wait, i, j) && InTimeOf(es, wait, j, k)
  }

  lemma PeopleAreVoters(a: Oper, b: Oper)
    ensures TwoPeople(a, b) <==> !SameVoter(a, b)
  {
  }

  lemma MasksWritten(a: Mask, b: Mask)
    ensures SameMask(a, b) <==> IrcFold(a.user) == IrcFold(b.user) && IrcFold(a.host) == IrcFold(b.host)
    ensures Stored(a) == Mask(UpTo(a.user, 81), UpTo(a.host, 127))
  {
  }

  lemma MajorityWritten(es: seq<Event>, wait: int, i: nat, j: nat, k: nat)
    ensures Majority(es, wait, i, j, k) <==> Supported(es, wait, i, j, k)
  {
    if i < j < k < |es| && es[i].Vote? && es[j].Vote? && es[k].Vote? {
      PeopleAreVoters(es[i].oper, es[j].oper);
      PeopleAreVoters(es[i].oper, es[k].oper);
      PeopleAreVoters(es[j].oper, es[k].oper);
      MasksWritten(Stored(es[i].mask), es[j].mask);
      MasksWritten(Stored(es[i].mask), es[k].mask);
      MasksWritten(es[i].mask, es[i].mask);
    }
    hide TwoPeople, SameVoter, SameMask, Stored, IrcFold, UpTo;
  }

  /** In every run, whatever takes effect is backed by three people on three servers. */
  lemma ThreePeople(es: seq<Event>, wait: int, k: nat)
    requires Registered(es) && PlacedAt(es, wait, k)
    ensures exists i, j :: Supported(es, wait, i, j, k)
  {
    hide PlacedAt, Majority, Supported;
    PlacementNeedsMajority(es, wait, k);
    var i, j :| Majority(es, wait, i, j, k);
    MajorityWritten(es, wait, i, j, k);
  }

  /** Nothing took effect for this mask and type from event i on. */
  ghost predicate NonePlaced(es: seq<Event>, wait: int, i: nat, k: nat)
    requires k < |es| && es[k].Vote?
  {
    forall m: nat :: i <= m < k && PlacedAt(es, wait, m) && es[m].Vote? && es[m].kind == es[k].kind ==>
      IrcFold(es[m].mask.user) != IrcFold(es[k].mask.user) || IrcFold(es[m].mask.host) != IrcFold(es[k].mask.host)
  }

  /** In every run with one entry for each mask, by three people who all voted since the mask was last placed. */
  lemma ThreeFreshPeople(es: seq<Event>, wait: int, k: nat)
    requires Registered(es) && Separate(es, wait) && PlacedAt(es, wait, k)
    ensures k < |es| && es[k].Vote?
    ensures exists i, j :: Supported(es, wait, i, j, k) && NonePlaced(es, wait, i, k)
  {
    PlacementNeedsFreshMajority(es, wait, k);
    var i, j :| FreshMajority(es, wait, i, j, k);
    MajorityWritten(es, wait, i, j, k);
    assert NonePlaced(es, wait, i, k);
  }

  /** A first vote is kept in front, with all of it that fits; a second one joins it. */
  lemma VoteKept(u: seq<Pending>, v: Oper, m: Mask, reason: CString, now: int)
    ensures var r, i := Voted(u, v, m, reason, now).0, Find(u, m);
            && (i == |u| ==>
                  && r[1..] == u
                  && r[0] == Pending(v, Oper([], [], []), Mask(UpTo(m.user, 81), UpTo(m.host, 127)), reason, now))
            && (i < |u| && u[i].vote2.user == [] && TwoPeople(u[i].vote1, v) ==>
                  |r| == |u| && r[i] == Pending(u[i].vote1, v, u[i].mask, u[i].reason, now)
                  && forall j :: 0 <= j < |u| && j != i ==> r[j] == u[j])
  {
    if Find(u, m) < |u| { PeopleAreVoters(u[Find(u, m)].vote1, v); }
    hide IrcFold, SameMask;
  }

  /** One event of a run does to the pending votes what a vote, or the timer, does to them. */
  lemma RunIsVotes(es: seq<Event>, e: Event, wait: int)
    ensures var s, r := Run(es, wait), Run(es + [e], wait);
            var a, d := Unexpired(s.add, e.now, wait), Unexpired(s.del, e.now, wait);
            match e
            case Timer(_) => r == State(a, d) && !PlacedAt(es + [e], wait, |es|)
            case Vote(kind, v, m, reason, glined, now) =>
              if kind == Add && glined then r == State(a, d) && !PlacedAt(es + [e], wait, |es|)
              else if kind == Add then
                && r == State(Voted(a, v, m, reason, now).0, d)
                && (PlacedAt(es + [e], wait, |es|) <==> Voted(a, v, m, reason, now).1 == Placed)
              else
                && r == State(a, Voted(d, v, m, reason, now).0)
                && (PlacedAt(es + [e], wait, |es|) <==> Voted(d, v, m, reason, now).1 == Placed)
  {
    assert (es + [e])[..|es|] == es && (es + [e])[|es|] == e;
    hide Voted, Unexpired;
  }
}
