/** The three-oper vote on G-lines and un-G-lines. */
module Gline {
  import opened CStrings

  const USER_MASK := 81    // USERLEN * 2 + 2 bytes with the terminator
  const HOST_MASK := 127   // HOSTLEN * 2 + 2 bytes with the terminator

  /** Who votes. The struct fields copied from the client have the client's own sizes, so nothing is cut. */
  datatype Oper = Oper(user: CString, host: CString, server: CString)
  datatype Mask = Mask(user: CString, host: CString)
  datatype Kind = Add | Del

  const NOBODY := Oper([], [], [])

  /** struct gline_pending; an empty user in vote2 means that the second vote is still out. */
  datatype Pending = Pending(vote1: Oper, vote2: Oper, mask: Mask, reason: CString, last: int)

  datatype Outcome = NotPlaced | AlreadyVoted | Placed

  /** The mask as the pending entry stores it. */
  function Stored(m: Mask): Mask {
    Mask(Cut(m.user, USER_MASK), Cut(m.host, HOST_MASK))
  }

  predicate Fits(m: Mask) {
    |m.user| <= USER_MASK && |m.host| <= HOST_MASK
  }

  predicate SameMask(a: Mask, b: Mask) {
    IrcFold(a.user) == IrcFold(b.user) && IrcFold(a.host) == IrcFold(b.host)
  }

  /** The check that makes a vote count as already cast. */
  predicate SameVoter(a: Oper, b: Oper) {
    (IrcFold(a.user) == IrcFold(b.user) && IrcFold(a.host) == IrcFold(b.host))
    || IrcFold(a.server) == IrcFold(b.server)
  }

  predicate Expired(p: Pending, now: int, wait: int) {
    p.last + wait <= now
  }

  ghost function Unexpired(l: seq<Pending>, now: int, wait: int): (r: seq<Pending>) {
    if l == [] then []
    else (if Expired(l[0], now, wait) then [] else [l[0]]) + Unexpired(l[1..], now, wait)
  }

  /** The first entry for a mask; |l| when there is none. */
  ghost function Find(l: seq<Pending>, m: Mask): (i: nat)
    ensures i <= |l| && (i < |l| ==> SameMask(l[i].mask, m))
    ensures forall j :: 0 <= j < i ==> !SameMask(l[j].mask, m)
  {
    if l == [] || SameMask(l[0].mask, m) then 0 else 1 + Find(l[1..], m)
  }

  /** What a vote on mask m does to the unexpired entries of its kind. */
  ghost function Voted(l: seq<Pending>, v: Oper, m: Mask, reason: CString, now: int): (seq<Pending>, Outcome) {
    var i := Find(l, m);
    if i == |l| then ([Pending(v, NOBODY, Stored(m), reason, now)] + l, NotPlaced)
    else if SameVoter(l[i].vote1, v) then (l, AlreadyVoted)
    else if l[i].vote2.user == [] then (l[i := l[i].(vote2 := v, last := now)], NotPlaced)
    else if SameVoter(l[i].vote2, v) then (l, AlreadyVoted)
    else (l[..i] + l[i + 1..], Placed)
  }

  // ---------------------------------------------------------------- the outcome in plain terms

  /** One person, or one server, behind both votes. */
  predicate OnePerson(a: Oper, b: Oper) {
    || (IrcFold(a.user) == IrcFold(b.user) && IrcFold(a.host) == IrcFold(b.host))
    || IrcFold(a.server) == IrcFold(b.server)
  }

  /** The entry is for this mask and was voted on less than wait ago. */
  predicate PendingFor(p: Pending, m: Mask, now: int, wait: int) {
    IrcFold(p.mask.user) == IrcFold(m.user) && IrcFold(p.mask.host) == IrcFold(m.host) && now < p.last + wait
  }

  /** Entry i is the first one pending for the mask. */
  ghost predicate FirstFor(l: seq<Pending>, m: Mask, now: int, wait: int, i: nat) {
    i < |l| && PendingFor(l[i], m, now, wait) && forall j :: 0 <= j < i ==> !PendingFor(l[j], m, now, wait)
  }

  /** Oper v's vote is in the first entry that is pending for the mask, or that of the same person or server. */
  ghost predicate HasVoted(l: seq<Pending>, v: Oper, m: Mask, now: int, wait: int) {
    exists i: nat :: FirstFor(l, m, now, wait, i)
                && (OnePerson(l[i].vote1, v) || (l[i].vote2.user != [] && OnePerson(l[i].vote2, v)))
  }

  /** The first entry that is pending for the mask has two votes. */
  ghost predicate HasTwo(l: seq<Pending>, m: Mask, now: int, wait: int) {
    exists i: nat :: FirstFor(l, m, now, wait, i) && l[i].vote2.user != []
  }

  lemma PendingIs(p: Pending, m: Mask, now: int, wait: int)
    ensures PendingFor(p, m, now, wait) <==> SameMask(p.mask, m) && !Expired(p, now, wait)
  {
  }

  lemma FindHead(x: Pending, w: seq<Pending>, m: Mask)
    ensures Find([x] + w, m) == if SameMask(x.mask, m) then 0 else 1 + Find(w, m)
  {
    assert ([x] + w)[1..] == w;
  }

  lemma UnexpiredHead(l: seq<Pending>, now: int, wait: int)
    ensures Unexpired([], now, wait) == []
    ensures l != [] ==>
              var w := Unexpired(l[1..], now, wait);
              Unexpired(l, now, wait) == if Expired(l[0], now, wait) then w else [l[0]] + w
  {
    hide Expired;
    if l != [] { assert [] + Unexpired(l[1..], now, wait) == Unexpired(l[1..], now, wait); }
  }

  /** The entry that a vote acts on. */
  ghost predicate ActsOn(l: seq<Pending>, u: seq<Pending>, m: Mask, now: int, wait: int, i: nat) {
    if Find(u, m) < |u| then FirstFor(l, m, now, wait, i) && l[i] == u[Find(u, m)]
    else forall j :: 0 <= j < |l| ==> !PendingFor(l[j], m, now, wait)
  }

  lemma ActsOnNext(l: seq<Pending>, u: seq<Pending>, m: Mask, now: int, wait: int, t: nat)
    requires l != [] && ActsOn(l[1..], u, m, now, wait, t) && !PendingFor(l[0], m, now, wait)
    ensures ActsOn(l, u, m, now, wait, t + 1)
  {
    hide PendingFor;
    assert forall j :: 0 < j < |l| ==> l[j] == l[1..][j - 1];
  }

  lemma {:induction false} FirstUnexpired(l: seq<Pending>, m: Mask, now: int, wait: int) returns (i: nat)
    ensures ActsOn(l, Unexpired(l, now, wait), m, now, wait, i)
  {
    hide Unexpired, PendingFor, SameMask, Expired;
    i := 0;
    UnexpiredHead(l, now, wait);
    if l != [] {
      var t := FirstUnexpired(l[1..], m, now, wait);
      var w := Unexpired(l[1..], now, wait);
      PendingIs(l[0], m, now, wait);
      FindHead(l[0], w, m);
      if Expired(l[0], now, wait) {
        ActsOnNext(l, w, m, now, wait, t);
        i := t + 1;
      } else if !SameMask(l[0].mask, m) {
        ActsOnNext(l, w, m, now, wait, t);
        i := t + 1;
      }
    }
  }

  /** A vote is refused exactly if the oper has voted, and takes effect exactly if two others have. */
  lemma OutcomeExact(l: seq<Pending>, v: Oper, m: Mask, reason: CString, now: int, wait: int)
    ensures var r := Voted(Unexpired(l, now, wait), v, m, reason, now).1;
            && (r == AlreadyVoted <==> HasVoted(l, v, m, now, wait))
            && (r == Placed <==> HasTwo(l, m, now, wait) && !HasVoted(l, v, m, now, wait))
  {
    hide Unexpired, PendingFor, OnePerson, SameVoter, SameMask;
    var i := FirstUnexpired(l, m, now, wait);
    var u := Unexpired(l, now, wait);
    VoterIsPerson(v);
    if Find(u, m) < |u| {
      var p := l[i];
      OnlyFirst(l, m, now, wait, i);
      assert HasVoted(l, v, m, now, wait) <==>
             OnePerson(p.vote1, v) || (p.vote2.user != [] && OnePerson(p.vote2, v));
      assert HasTwo(l, m, now, wait) <==> p.vote2.user != [];
    }
  }

  lemma OnlyFirst(l: seq<Pending>, m: Mask, now: int, wait: int, i: nat)
    requires FirstFor(l, m, now, wait, i)
    ensures forall j: nat :: FirstFor(l, m, now, wait, j) ==> j == i
  {
    hide PendingFor;
  }

  lemma VoterIsPerson(v: Oper)
    ensures forall a: Oper :: SameVoter(a, v) == OnePerson(a, v)
  {
  }

  /** The pending votes of both kinds. */
  class Votes {
    var add: seq<Pending>
    var del: seq<Pending>
    const wait: int   // gline_request_time

    constructor (wait: int)
      ensures add == [] && del == [] && this.wait == wait
    {
      add, del := [], [];
      this.wait := wait;
    }

    /** cleanup_glines(NULL): drops what was not voted on in time. */
    method Cleanup(now: int)
      modifies this`add, this`del
      ensures add == Unexpired(old(add), now, wait) && del == Unexpired(old(del), now, wait)
    {
      add := Expire(add, now, wait);
      del := Expire(del, now, wait);
    }

    /** check_majority; glined tells whether the mask is G-lined already. */
    method CheckMajority(v: Oper, m: Mask, reason: CString, kind: Kind, glined: bool, now: int) returns (r: Outcome)
      modifies this`add, this`del
      ensures var a, d := Unexpired(old(add), now, wait), Unexpired(old(del), now, wait);
              if kind == Add && glined then add == a && del == d && r == NotPlaced
              else if kind == Add then del == d && (add, r) == Voted(a, v, m, reason, now)
              else add == a && (del, r) == Voted(d, v, m, reason, now)
      ensures var open, l := !(kind == Add && glined), if kind == Add then old(add) else old(del);
              && (r == AlreadyVoted <==> open && HasVoted(l, v, m, now, wait))
              && (r == Placed <==> open && HasTwo(l, m, now, wait) && !HasVoted(l, v, m, now, wait))
    {
      OutcomeExact(if kind == Add then add else del, v, m, reason, now, wait);
      hide HasVoted, HasTwo, Unexpired, Voted;
      Cleanup(now);
      if kind == Add && glined { return NotPlaced; }
      if kind == Add {
        add, r := CastVote(add, v, m, reason, now);
      } else {
        del, r := CastVote(del, v, m, reason, now);
      }
    }
  }

  /** expire_pending_glines on one list, deleting while iterating. */
  method Expire(list: seq<Pending>, now: int, wait: int) returns (l: seq<Pending>)
    ensures l == Unexpired(list, now, wait)
  {
    l := list;
    var i := 0;
    ghost var n := 0;
    assert list[..0] == [] && Unexpired([], now, wait) == [];
    while i < |l|
      invariant i <= |l| && n <= |list| && l[..i] == Unexpired(list[..n], now, wait) && l[i..] == list[n..]
      decreases |l| - i
    {
      assert l[i] == list[n] && l[i..][1..] == list[n..][1..];
      UnexpiredStep(list, n, now, wait);
      hide Unexpired;
      if Expired(l[i], now, wait) {
        ghost var done := l[..i];
        l := l[..i] + l[i + 1..];
        assert l[..i] == done;
      } else {
        i := i + 1;
      }
      n := n + 1;
    }
    assert list[..n] == list && l[..i] == l;
  }

  lemma {:induction false} UnexpiredConcat(l: seq<Pending>, m: seq<Pending>, now: int, wait: int)
    ensures Unexpired(l + m, now, wait) == Unexpired(l, now, wait) + Unexpired(m, now, wait)
  {
    if l == [] {
      assert l + m == m;
    } else {
      var h, c := if Expired(l[0], now, wait) then [] else [l[0]], l + m;
      assert c[0] == l[0] && c[1..] == l[1..] + m;
      assert Unexpired(c, now, wait) == h + Unexpired(c[1..], now, wait);
      assert Unexpired(l, now, wait) == h + Unexpired(l[1..], now, wait);
      hide Unexpired;
      UnexpiredConcat(l[1..], m, now, wait);
    }
  }

  lemma UnexpiredStep(l: seq<Pending>, n: nat, now: int, wait: int)
    requires n < |l|
    ensures Unexpired(l[..n + 1], now, wait) == Unexpired(l[..n], now, wait) + if Expired(l[n], now, wait) then [] else [l[n]]
  {
    UnexpiredConcat(l[..n], [l[n]], now, wait);
    assert l[..n + 1] == l[..n] + [l[n]] && [l[n]][1..] == [];
  }

  /** The list loop of check_majority. */
  method CastVote(list: seq<Pending>, v: Oper, m: Mask, reason: CString, now: int)
    returns (l: seq<Pending>, r: Outcome)
    ensures (l, r) == Voted(list, v, m, reason, now)
  {
    l := list;
    var i := 0;
    while i < |l|
      invariant 0 <= i <= |l| && l == list
      invariant forall j :: 0 <= j < i ==> !SameMask(l[j].mask, m)
    {
      if SameMask(l[i].mask, m) {
        assert i == Find(list, m);
        if SameVoter(l[i].vote1, v) { return l, AlreadyVoted; }
        if l[i].vote2.user != [] {
          if SameVoter(l[i].vote2, v) { return l, AlreadyVoted; }
          return l[..i] + l[i + 1..], Placed;
        }
        return l[i := l[i].(vote2 := v, last := now)], NotPlaced;
      }
      i := i + 1;
    }
    assert Find(list, m) == |list|;
    return [Pending(v, NOBODY, Stored(m), reason, now)] + l, NotPlaced;
  }
}
