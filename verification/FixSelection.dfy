/** Choosing whom to op: the score poll, the decaying threshold and the walk over the channel's clients. */
module FixSelection {
  import opened CStrings
  import opened OpRecords
  import opened Channels
  import opened FixTimes

  // ---------------------------------------------------------------- DB_get_top_user_hosts

  datatype ChanUser = ChanUser(user: CString, host: CString, score: nat)

  function UserOf(o: Op): ChanUser {
    ChanUser(o.user, o.host, Score(o))
  }

  function UserKey(u: ChanUser): Key {
    KeyOf(u.user, u.host)
  }

  /** The records whose user@host is among keys, in order. */
  ghost function Matching(ops: seq<Op>, keys: seq<Key>): (r: seq<Op>) {
    if ops == [] then []
    else (if OpKey(ops[0]) in keys then [ops[0]] else []) + Matching(ops[1..], keys)
  }

  function Take<T>(s: seq<T>, n: nat): (r: seq<T>) {
    if |s| <= n then s else s[..n]
  }

  ghost function Users(ops: seq<Op>): (r: seq<ChanUser>)
    ensures |r| == |ops| && forall i :: 0 <= i < |r| ==> r[i] == UserOf(ops[i])
  {
    seq(|ops|, i requires 0 <= i < |ops| => UserOf(ops[i]))
  }

  lemma {:induction false} MatchingSnoc(ops: seq<Op>, keys: seq<Key>, j: nat)
    requires j < |ops|
    ensures Matching(ops[..j + 1], keys) ==
            Matching(ops[..j], keys) + (if OpKey(ops[j]) in keys then [ops[j]] else [])
  {
    if j == 0 {
      assert ops[..1][1..] == [] && ops[..0] == [];
    } else {
      assert ops[..j + 1][1..] == ops[1..][..j] && ops[..j][1..] == ops[1..][..j - 1];
      MatchingSnoc(ops[1..], keys, j - 1);
    }
  }

  lemma {:induction false} MatchingPrefix(ops: seq<Op>, keys: seq<Key>, j: nat)
    requires j <= |ops|
    ensures Matching(ops[..j], keys) <= Matching(ops, keys)
    decreases |ops| - j
  {
    if j == |ops| {
      assert ops[..j] == ops;
    } else {
      MatchingSnoc(ops, keys, j);
      MatchingPrefix(ops, keys, j + 1);
    }
  }

  lemma NoMatching(keys: seq<Key>)
    ensures Matching([], keys) == []
  {
  }

  /** DB_get_top_user_hosts on channel c: the first max records that match, with their scores. */
  method TopUserHosts(c: Channel, users: seq<CString>, hosts: seq<CString>, max: nat) returns (r: seq<ChanUser>)
    requires c.Valid() && |users| == |hosts| && max >= 1
    ensures r == Users(Take(Matching(c.View().ops, Keys(users, hosts)), max))
  {
    hide Matching, KeyOf, Score, ValidChan;
    ghost var ops, keys := c.View().ops, Keys(users, hosts);
    r := [];
    var j := 0;
    NoMatching(keys);
    assert ops[..0] == [];
    while j < c.opCount && |r| < max
      invariant 0 <= j <= c.opCount
      invariant |Matching(ops[..j], keys)| <= max && r == Users(Matching(ops[..j], keys))
    {
      assert c.chanop[j] == ops[j];
      MatchingSnoc(ops, keys, j);
      var i := 0;
      while i < |users|
        invariant 0 <= i <= |users|
        invariant forall k :: 0 <= k < i ==> keys[k] != OpKey(ops[j])
        invariant r == Users(Matching(ops[..j], keys))
      {
        if KeyOf(c.chanop[j].user, c.chanop[j].host) == KeyOf(users[i], hosts[i]) {
          assert keys[i] == OpKey(ops[j]);
          var score := ScoreOf(c.chanop[j]);
          r := r + [ChanUser(c.chanop[j].user, c.chanop[j].host, score)];
          break;
        }
        i := i + 1;
      }
      assert r == Users(Matching(ops[..j + 1], keys));
      j := j + 1;
    }
    MatchingPrefix(ops, keys, j);
    if j == c.opCount { assert ops[..j] == ops; }
  }

  ghost function Keys(users: seq<CString>, hosts: seq<CString>): (r: seq<Key>)
    requires |users| == |hosts|
    ensures |r| == |users| && forall i :: 0 <= i < |r| ==> r[i] == KeyOf(users[i], hosts[i])
  {
    seq(|users|, i requires 0 <= i < |users| => KeyOf(users[i], hosts[i]))
  }

  lemma {:induction false} MatchingMembers(ops: seq<Op>, keys: seq<Key>)
    ensures forall o :: o in Matching(ops, keys) <==> o in ops && OpKey(o) in keys
    ensures multiset(Matching(ops, keys)) <= multiset(ops)
  {
    if ops != [] {
      hide OpKey;
      MatchingMembers(ops[1..], keys);
      assert ops == [ops[0]] + ops[1..];
    }
  }

  lemma {:induction false} MatchingDescends(ops: seq<Op>, keys: seq<Key>)
    requires Descending(ops)
    ensures Descending(Matching(ops, keys))
  {
    if ops != [] {
      hide OpKey, Score;
      var t := ops[1..];
      MatchingDescends(t, keys);
      MatchingMembers(t, keys);
      var m := Matching(t, keys);
      forall i | 0 <= i < |m| ensures Score(ops[0]) >= Score(m[i]) { assert m[i] in t; }
    }
  }

  lemma TakeBest(m: seq<Op>, max: nat)
    requires WellFormed(m) && Descending(m)
    ensures var t := Take(m, max); WellFormed(t) && Descending(t) && |t| <= max && t <= m
    ensures forall o <- m :: o !in Take(m, max) ==> |m| > max && forall p <- Take(m, max) :: Score(p) >= Score(o)
  {
    hide Score, OpKey;
    var t := Take(m, max);
    assert forall i :: 0 <= i < |t| ==> t[i] == m[i];
    forall o <- m | o !in t ensures |m| > max && forall p <- t :: Score(p) >= Score(o) {
      var i :| 0 <= i < |m| && m[i] == o;
    }
  }

  /** On a channel in scoring order the poll is the brute-force top max of the matching records. */
  lemma TopIsBest(ops: seq<Op>, keys: seq<Key>, max: nat)
    requires WellFormed(ops) && Descending(ops)
    ensures var t := Take(Matching(ops, keys), max);
            && WellFormed(t) && Descending(t) && |t| <= max
            && (forall o <- t :: o in ops && OpKey(o) in keys)
            && (forall o <- ops :: OpKey(o) in keys && o !in t ==> |t| == max && forall p <- t :: Score(p) >= Score(o))
  {
    var m := Matching(ops, keys);
    MatchingMembers(ops, keys);
    MatchingDescends(ops, keys);
    WellFormedPart(ops, m);
    TakeBest(m, max);
    hide Score, OpKey, Matching, WellFormed, Descending;
  }

  // ---------------------------------------------------------------- the threshold

  const OCF_MAX_SCORE := 4032      // DAYSAMPLES * (86400 / OCF_DATABASE_UPDATE_TIME)
  const ABS_BEGIN := 0.20
  const ABS_END := 0.04
  const REL_BEGIN := 0.90
  const REL_END := 0.30

  /** Conversion of a float to int: towards zero. */
  function Trunc(x: real): int {
    if x >= 0.0 then x.Floor else -(-x).Floor
  }

  /** The value at time t on the line from top*first at 0 to top*last at FIX_WINDOW. */
  function Line(top: real, first: real, last: real, t: int): real {
    top * first - t as real / FIX_WINDOW as real * (top * first - last * top)
  }

  /** The minimum score for ops t seconds into a fix: the higher of the absolute and the relative line. */
  function MinScore(maxScore: nat, t: int): int {
    var a := Trunc(Line(OCF_MAX_SCORE as real, ABS_BEGIN, ABS_END, t));
    var r := Trunc(Line(maxScore as real, REL_BEGIN, REL_END, t));
    if r > a then r else a
  }

  lemma TruncMonotone(x: real, y: real)
    requires x <= y
    ensures Trunc(x) <= Trunc(y)
  {
  }

  lemma LineFalls(top: real, first: real, last: real, t: int, u: int)
    requires top >= 0.0 && first >= last && t <= u
    ensures Line(top, first, last, u) <= Line(top, first, last, t)
  {
    var slope := top * first - last * top;
    assert slope == top * (first - last) && slope >= 0.0;
    assert t as real / 3600.0 <= u as real / 3600.0;
    Scale(slope, t as real / 3600.0, u as real / 3600.0);
  }

  lemma Scale(k: real, a: real, b: real)
    requires k >= 0.0 && a <= b
    ensures a * k <= b * k
  {
  }

  /** The threshold only falls, and inside the window it stays at or above the END values rounded down. */
  lemma ThresholdFalls(maxScore: nat, t: int, u: int)
    requires t <= u
    ensures MinScore(maxScore, u) <= MinScore(maxScore, t)
    ensures u <= FIX_WINDOW ==>
              MinScore(maxScore, u) >= (ABS_END * OCF_MAX_SCORE as real).Floor == 161
              && MinScore(maxScore, u) >= (REL_END * maxScore as real).Floor
  {
    var m := maxScore as real;
    LineFalls(4032.0, ABS_BEGIN, ABS_END, t, u);
    LineFalls(m, REL_BEGIN, REL_END, t, u);
    TruncMonotone(Line(4032.0, ABS_BEGIN, ABS_END, u), Line(4032.0, ABS_BEGIN, ABS_END, t));
    TruncMonotone(Line(m, REL_BEGIN, REL_END, u), Line(m, REL_BEGIN, REL_END, t));
    if u <= FIX_WINDOW {
      LineFalls(4032.0, ABS_BEGIN, ABS_END, u, FIX_WINDOW);
      LineFalls(m, REL_BEGIN, REL_END, u, FIX_WINDOW);
      assert Line(4032.0, ABS_BEGIN, ABS_END, FIX_WINDOW) == 161.28;
      assert Line(m, REL_BEGIN, REL_END, FIX_WINDOW) == REL_END * m;
    }
  }

  // ---------------------------------------------------------------- the clients of a channel

  datatype Client = Client(nick: CString, user: CString, host: CString)

  function ClientKey(c: Client): Key {
    KeyOf(c.user, c.host)
  }

  /** The clients with user@host k, in order. */
  ghost function With(cs: seq<Client>, k: Key): (r: seq<Client>) {
    if cs == [] then []
    else With(cs[..|cs| - 1], k) + (if ClientKey(cs[|cs| - 1]) == k then [cs[|cs| - 1]] else [])
  }

  /** The clients of each user@host in turn, until one scores below min. */
  ghost function Ranked(cs: seq<Client>, high: seq<ChanUser>, min: int): (r: seq<Client>) {
    if high == [] || high[0].score < min then []
    else With(cs, UserKey(high[0])) + Ranked(cs, high[1..], min)
  }

  /** add_userhost_to_array, over voiced clients and peons: every user@host once. */
  method DistinctUserHosts(cs: seq<Client>) returns (users: seq<CString>, hosts: seq<CString>)
    ensures |users| == |hosts|
    ensures forall k :: k in Keys(users, hosts) <==> exists c <- cs :: ClientKey(c) == k
    ensures forall i, j :: 0 <= i < j < |users| ==> Keys(users, hosts)[i] != Keys(users, hosts)[j]
  {
    users, hosts := [], [];
    for n := 0 to |cs|
      invariant |users| == |hosts|
      invariant forall k :: k in Keys(users, hosts) <==> exists c <- cs[..n] :: ClientKey(c) == k
      invariant forall i, j :: 0 <= i < j < |users| ==> Keys(users, hosts)[i] != Keys(users, hosts)[j]
    {
      var c := cs[n];
      var i := 0;
      while i < |users| && KeyOf(users[i], hosts[i]) != KeyOf(c.user, c.host)
        invariant 0 <= i <= |users|
        invariant forall j :: 0 <= j < i ==> Keys(users, hosts)[j] != ClientKey(c)
      {
        i := i + 1;
      }
      ghost var was := Keys(users, hosts);
      assert cs[..n + 1] == cs[..n] + [c];
      if i == |users| {
        users, hosts := users + [c.user], hosts + [c.host];
        assert Keys(users, hosts) == was + [ClientKey(c)];
      } else {
        assert was[i] == ClientKey(c);
      }
    }
    assert cs[..|cs|] == cs;
  }

  /** Walks one client list, adding those with the given user@host until there are max nicks. */
  method AddMatches(cs: seq<Client>, u: ChanUser, had: seq<Client>, max: nat) returns (nicks: seq<Client>)
    requires |had| < max
    ensures nicks == Take(had + With(cs, UserKey(u)), max)
  {
    nicks := had;
    ghost var k := UserKey(u);
    for n := 0 to |cs|
      invariant nicks == had + With(cs[..n], k) && |nicks| < max
    {
      assert cs[..n + 1][..n] == cs[..n];
      if KeyOf(cs[n].user, cs[n].host) == KeyOf(u.user, u.host) {
        nicks := nicks + [cs[n]];
        if |nicks| >= max {
          WithPrefix(cs, k, n + 1);
          return;
        }
      }
    }
    assert cs[..|cs|] == cs;
  }

  lemma {:induction false} WithAppend(a: seq<Client>, b: seq<Client>, k: Key)
    ensures With(a + b, k) == With(a, k) + With(b, k)
  {
    if b == [] {
      assert a + b == a;
    } else {
      assert (a + b)[..|a + b| - 1] == a + b[..|b| - 1];
      WithAppend(a, b[..|b| - 1], k);
    }
  }

  /** The nicks found so far, when the walk stands at pos. */
  ghost predicate Walked(cs: seq<Client>, high: seq<ChanUser>, min: int, max: nat, pos: nat, nicks: seq<Client>) {
    pos <= |high| && |nicks| < max && Ranked(cs, high, min) == nicks + Ranked(cs, high[pos..], min)
  }

  lemma WalkedOn(cs: seq<Client>, high: seq<ChanUser>, min: int, max: nat, pos: nat, nicks: seq<Client>)
    requires pos < |high| && Walked(cs, high, min, max, pos, nicks) && high[pos].score >= min
    ensures var more := nicks + With(cs, UserKey(high[pos]));
            && (|more| < max ==> Walked(cs, high, min, max, pos + 1, more))
            && (|more| >= max ==> Take(Ranked(cs, high, min), max) == Take(more, max))
  {
    hide With, UserKey;
    assert high[pos..][1..] == high[pos + 1..];
    var w, later := With(cs, UserKey(high[pos])), Ranked(cs, high[pos + 1..], min);
    assert nicks + (w + later) == (nicks + w) + later;
  }

  /** find_scored_nicks: voiced clients and peons for each user@host in turn, up to max nicks. */
  method FindScoredNicks(voiced: seq<Client>, peons: seq<Client>, high: seq<ChanUser>, max: nat, min: int)
    returns (nicks: seq<Client>)
    ensures nicks == Take(Ranked(voiced + peons, high, min), max)
  {
    hide Ranked, With, UserKey, KeyOf, Walked;
    nicks := [];
    if max == 0 { return; }
    ghost var cs := voiced + peons;
    var pos := 0;
    WalkStarts(cs, high, min, max);
    while pos < |high| && high[pos].score >= min
      invariant pos <= |high| && |nicks| < max && Walked(cs, high, min, max, pos, nicks)
    {
      WalkedOn(cs, high, min, max, pos, nicks);
      WithAppend(voiced, peons, UserKey(high[pos]));
      nicks := AddBoth(voiced, peons, high[pos], nicks, max);
      if |nicks| >= max { return; }
      pos := pos + 1;
    }
    WalkEnds(cs, high, min, max, pos, nicks);
  }

  /** The clients of one user@host, voiced ones first. */
  method AddBoth(voiced: seq<Client>, peons: seq<Client>, u: ChanUser, had: seq<Client>, max: nat) returns (nicks: seq<Client>)
    requires |had| < max
    ensures nicks == Take(had + (With(voiced, UserKey(u)) + With(peons, UserKey(u))), max)
  {
    hide With, UserKey;
    ghost var v, p := With(voiced, UserKey(u)), With(peons, UserKey(u));
    assert had + (v + p) == had + v + p;
    nicks := AddMatches(voiced, u, had, max);
    if |nicks| >= max { return; }
    nicks := AddMatches(peons, u, nicks, max);
  }

  lemma WalkStarts(cs: seq<Client>, high: seq<ChanUser>, min: int, max: nat)
    requires max > 0
    ensures Walked(cs, high, min, max, 0, [])
  {
    hide Ranked;
    assert high[0..] == high && [] + Ranked(cs, high, min) == Ranked(cs, high, min);
  }

  lemma WalkEnds(cs: seq<Client>, high: seq<ChanUser>, min: int, max: nat, pos: nat, nicks: seq<Client>)
    requires Walked(cs, high, min, max, pos, nicks) && (pos == |high| || high[pos].score < min)
    ensures nicks == Take(Ranked(cs, high, min), max)
  {
    assert Ranked(cs, high[pos..], min) == [];
    assert nicks + [] == nicks;
    hide With;
  }

  lemma {:induction false} WithPrefix(cs: seq<Client>, k: Key, n: nat)
    requires n <= |cs|
    ensures With(cs[..n], k) <= With(cs, k)
    decreases |cs| - n
  {
    if n == |cs| {
      assert cs[..n] == cs;
    } else {
      assert cs[..n + 1][..n] == cs[..n];
      WithPrefix(cs, k, n + 1);
    }
  }

  // ---------------------------------------------------------------- one attempt, end to end

  ghost function KeysOf(cs: seq<Client>): (r: seq<Key>)
    ensures |r| == |cs| && forall i :: 0 <= i < |r| ==> r[i] == ClientKey(cs[i])
  {
    seq(|cs|, i requires 0 <= i < |cs| => ClientKey(cs[i]))
  }

  /** All clients with a stored score of at least min, by score. */
  ghost function Ranking(ops: seq<Op>, cs: seq<Client>, min: int): seq<Client> {
    Ranked(cs, Users(Matching(ops, KeysOf(cs))), min)
  }

  /** Whom one attempt ops. */
  ghost function Selection(ops: seq<Op>, cs: seq<Client>, slots: nat, min: int): seq<Client> {
    Take(Ranking(ops, cs, min), slots)
  }

  lemma {:induction false} MatchingSameKeys(ops: seq<Op>, a: seq<Key>, b: seq<Key>)
    requires forall k :: k in a <==> k in b
    ensures Matching(ops, a) == Matching(ops, b)
  {
    if ops != [] { MatchingSameKeys(ops[1..], a, b); }
  }

  /** The score array as allocated: zeroed entries behind the ones that were filled in. */
  function Padded(high: seq<ChanUser>, n: nat): (r: seq<ChanUser>)
    requires |high| <= n
    ensures |r| == n
  {
    high + seq(n - |high|, _ => ChanUser([], [], 0))
  }

  /** No client is taken for a zeroed entry: each has a user name, or such entries score too little. */
  ghost predicate BlanksMatchNobody(cs: seq<Client>, min: int) {
    min >= 1 || forall c <- cs :: c.user != []
  }

  lemma {:induction false} BlanksRanked(cs: seq<Client>, n: nat, min: int)
    requires BlanksMatchNobody(cs, min)
    ensures Ranked(cs, Padded([], n), min) == []
  {
    if n > 0 && min < 1 {
      var high := Padded([], n);
      assert high[0] == ChanUser([], [], 0) && high[1..] == Padded([], n - 1);
      WithMembers(cs, UserKey(high[0]));
      BlanksRanked(cs, n - 1, min);
      var w := With(cs, UserKey(high[0]));
      assert w != [] ==> w[0] in cs && |IrcFold(w[0].user)| == 0;
    }
  }

  lemma {:induction false} PaddedRanked(cs: seq<Client>, high: seq<ChanUser>, n: nat, min: int)
    requires |high| <= n && BlanksMatchNobody(cs, min)
    ensures Ranked(cs, Padded(high, n), min) == Ranked(cs, high, min)
  {
    if high == [] {
      BlanksRanked(cs, n, min);
    } else {
      assert Padded(high, n)[1..] == Padded(high[1..], n - 1);
      PaddedRanked(cs, high[1..], n - 1, min);
    }
  }

  /** Keeping only the best n records loses none of the first n clients: every record has one. */
  lemma {:induction false} TruncatedRanked(cs: seq<Client>, m: seq<Op>, min: int, n: nat, slots: nat)
    requires slots <= n && forall o <- m :: With(cs, OpKey(o)) != []
    ensures Take(Ranked(cs, Users(Take(m, n)), min), slots) == Take(Ranked(cs, Users(m), min), slots)
  {
    hide With, OpKey, Ranked, Users, Score;
    if |m| > n && slots > 0 {
      var t := Take(m, n);
      RankedCons(cs, m, min);
      RankedCons(cs, t, min);
      assert t[1..] == Take(m[1..], n - 1) && t[0] == m[0];
      var w := With(cs, OpKey(m[0]));
      var x, y := Ranked(cs, Users(t[1..]), min), Ranked(cs, Users(m[1..]), min);
      var left := if slots <= |w| then 0 else slots - |w|;
      TruncatedRanked(cs, m[1..], min, n - 1, left);
      TakeAppend(w, x, y, slots, left);
    }
  }

  lemma RankedCons(cs: seq<Client>, m: seq<Op>, min: int)
    requires m != []
    ensures Ranked(cs, Users(m), min) ==
            if Score(m[0]) < min then [] else With(cs, OpKey(m[0])) + Ranked(cs, Users(m[1..]), min)
  {
    hide With, Score, OpKey;
    RecordKey(m[0]);
    assert Users(m)[1..] == Users(m[1..]);
  }

  lemma RecordKey(o: Op)
    ensures UserKey(UserOf(o)) == OpKey(o)
  {
  }

  lemma TakeAppend(w: seq<Client>, x: seq<Client>, y: seq<Client>, slots: nat, left: nat)
    requires left == if slots <= |w| then 0 else slots - |w|
    requires Take(x, left) == Take(y, left)
    ensures Take(w + x, slots) == Take(w + y, slots)
  {
    if slots > |w| {
      assert Take(w + x, slots) == w + Take(x, left) && Take(w + y, slots) == w + Take(y, left);
    }
  }

  /** The polled user@hosts lead to the selection, and show beforehand whether it is empty. */
  ghost predicate Polled(ops: seq<Op>, cs: seq<Client>, found: nat, high: seq<ChanUser>, slots: nat, min: int)
    requires high != []
  {
    && Take(Ranked(cs, high, min), slots) == Selection(ops, cs, slots, min)
    && (slots > 0 ==> (found == 0 || high[0].score < min <==> Selection(ops, cs, slots, min) == []))
  }

  /** Both lists of keys stand for the same clients. */
  lemma PollKeys(ops: seq<Op>, cs: seq<Client>, keys: seq<Key>)
    requires forall k :: k in keys <==> exists c <- cs :: ClientKey(c) == k
    ensures Matching(ops, keys) == Matching(ops, KeysOf(cs))
    ensures forall i :: 0 <= i < |Matching(ops, keys)| ==> With(cs, OpKey(Matching(ops, keys)[i])) != []
  {
    assert forall k :: k in KeysOf(cs) <==> exists c <- cs :: ClientKey(c) == k by {
      forall c <- cs ensures ClientKey(c) in KeysOf(cs) {
        var i :| 0 <= i < |cs| && cs[i] == c;
        assert KeysOf(cs)[i] == ClientKey(c);
      }
    }
    MatchingSameKeys(ops, keys, KeysOf(cs));
    MatchingMembers(ops, keys);
    var m := Matching(ops, keys);
    hide Matching, OpKey, ClientKey;
    forall i | 0 <= i < |m| ensures With(cs, OpKey(m[i])) != [] {
      assert m[i] in m;
      var c :| c in cs && ClientKey(c) == OpKey(m[i]);
      WithMembers(cs, OpKey(m[i]));
    }
  }

  /** Polling only as many user@hosts as there are places loses nobody who would be chosen. */
  lemma PollSelects(ops: seq<Op>, cs: seq<Client>, keys: seq<Key>, n: nat, slots: nat, min: int)
    requires slots <= n && n >= 1 && BlanksMatchNobody(cs, min)
    requires forall k :: k in keys <==> exists c <- cs :: ClientKey(c) == k
    ensures var high := Users(Take(Matching(ops, keys), n));
            |high| <= n && Polled(ops, cs, |high|, Padded(high, n), slots, min)
  {
    var m := Matching(ops, keys);
    PollKeys(ops, cs, keys);
    hide Matching, OpKey;
    assert forall o <- m :: With(cs, OpKey(o)) != [];
    TruncatedRanked(cs, m, min, n, slots);
    PaddedRanked(cs, Users(Take(m, n)), n, min);
    RankedEmpty(cs, m, min);
  }

  /** Nobody is ranked exactly when the best record is not good enough. */
  lemma RankedEmpty(cs: seq<Client>, m: seq<Op>, min: int)
    requires m != [] ==> With(cs, OpKey(m[0])) != []
    ensures Ranked(cs, Users(m), min) == [] <==> m == [] || Score(m[0]) < min
  {
    if m != [] { RecordKey(m[0]); }
    hide With, OpKey, Score;
  }

  lemma {:induction false} WithMembers(cs: seq<Client>, k: Key)
    ensures forall c :: c in With(cs, k) <==> c in cs && ClientKey(c) == k
    ensures forall c :: multiset(With(cs, k))[c] == if ClientKey(c) == k then multiset(cs)[c] else 0
  {
    if cs != [] {
      WithMembers(cs[..|cs| - 1], k);
      assert cs == cs[..|cs| - 1] + [cs[|cs| - 1]];
    }
  }

  // ---------------------------------------------------------------- what the ranking is

  /** The score stored for a client's user@host; -1 when there is no record. */
  ghost function Stored(ops: seq<Op>, c: Client): int {
    if HasKey(ops, ClientKey(c)) then Score(ops[IndexOf(ops, ClientKey(c))]) else -1
  }

  /** The clients whose stored score meets min, in channel order. */
  ghost function Qualified(ops: seq<Op>, cs: seq<Client>, min: int): seq<Client> {
    if cs == [] then []
    else Qualified(ops, cs[..|cs| - 1], min)
         + (if Stored(ops, cs[|cs| - 1]) >= min then [cs[|cs| - 1]] else [])
  }

  lemma {:induction false} QualifiedCount(ops: seq<Op>, cs: seq<Client>, min: int, c: Client)
    ensures multiset(Qualified(ops, cs, min))[c] == if Stored(ops, c) >= min then multiset(cs)[c] else 0
  {
    if cs != [] {
      hide Stored;
      QualifiedCount(ops, cs[..|cs| - 1], min, c);
      assert cs == cs[..|cs| - 1] + [cs[|cs| - 1]];
    }
  }

  /** The record of client c is in m and meets min. */
  ghost predicate Listed(m: seq<Op>, c: Client, min: int) {
    exists o <- m :: OpKey(o) == ClientKey(c) && Score(o) >= min
  }

  lemma {:induction false} RankedCount(cs: seq<Client>, m: seq<Op>, min: int, c: Client)
    requires WellFormed(m) && Descending(m)
    ensures multiset(Ranked(cs, Users(m), min))[c] == if Listed(m, c, min) then multiset(cs)[c] else 0
  {
    if m == [] {
    } else if Score(m[0]) < min {
      forall o <- m ensures Score(o) < min {}
    } else {
      var k := OpKey(m[0]);
      RecordKey(m[0]);
      WithMembers(cs, k);
      assert Users(m)[1..] == Users(m[1..]);
      assert WellFormed(m[1..]) && Descending(m[1..]);
      RankedCount(cs, m[1..], min, c);
      ListedSplit(m, c, min);
    }
  }

  lemma ListedSplit(m: seq<Op>, c: Client, min: int)
    requires m != [] && WellFormed(m) && Score(m[0]) >= min
    ensures Listed(m, c, min) <==> OpKey(m[0]) == ClientKey(c) || Listed(m[1..], c, min)
    ensures !(OpKey(m[0]) == ClientKey(c) && Listed(m[1..], c, min))
  {
    hide Score, OpKey, ClientKey;
    assert m == [m[0]] + m[1..];
    assert forall o <- m[1..] :: OpKey(o) != OpKey(m[0]);
  }

  lemma ListedStored(ops: seq<Op>, cs: seq<Client>, c: Client, min: int)
    requires WellFormed(ops) && c in cs && min >= 0
    ensures Listed(Matching(ops, KeysOf(cs)), c, min) <==> Stored(ops, c) >= min
  {
    var keys, k := KeysOf(cs), ClientKey(c);
    MatchingMembers(ops, keys);
    var i :| 0 <= i < |cs| && cs[i] == c;
    assert keys[i] == k;
    hide Score, Matching;
    if Listed(Matching(ops, keys), c, min) {
      var o :| o in Matching(ops, keys) && OpKey(o) == k && Score(o) >= min;
      var j :| 0 <= j < |ops| && ops[j] == o;
      IndexUnique(ops, j);
    }
    if Stored(ops, c) >= min {
      var o := ops[IndexOf(ops, k)];
      assert o in Matching(ops, keys) && OpKey(o) == k;
    }
  }

  /** The ranking holds exactly the qualified clients, each exactly as often. */
  lemma RankingIsQualified(ops: seq<Op>, cs: seq<Client>, min: int)
    requires WellFormed(ops) && Descending(ops) && min >= 0
    ensures multiset(Ranking(ops, cs, min)) == multiset(Qualified(ops, cs, min))
  {
    var m := Matching(ops, KeysOf(cs));
    MatchingMembers(ops, KeysOf(cs));
    MatchingDescends(ops, KeysOf(cs));
    WellFormedPart(ops, m);
    forall c: Client ensures multiset(Ranking(ops, cs, min))[c] == multiset(Qualified(ops, cs, min))[c] {
      RankedCount(cs, m, min, c);
      QualifiedCount(ops, cs, min, c);
      if c in cs { ListedStored(ops, cs, c, min); }
    }
  }

  /** Best first, nobody above b. */
  ghost predicate ByScore(ops: seq<Op>, r: seq<Client>) {
    forall i, j :: 0 <= i < j < |r| ==> Stored(ops, r[i]) >= Stored(ops, r[j])
  }

  ghost predicate AtMost(ops: seq<Op>, r: seq<Client>, b: int) {
    forall i :: 0 <= i < |r| ==> Stored(ops, r[i]) <= b
  }

  lemma ByScoreAppend(ops: seq<Op>, w: seq<Client>, r: seq<Client>, b: int)
    requires forall i :: 0 <= i < |w| ==> Stored(ops, w[i]) == b
    requires ByScore(ops, r) && AtMost(ops, r, b)
    ensures ByScore(ops, w + r) && AtMost(ops, w + r, b)
  {
    hide Stored;
  }

  lemma {:induction false} RankedDescends(ops: seq<Op>, cs: seq<Client>, m: seq<Op>, min: int)
    requires WellFormed(ops) && Descending(m) && forall o <- m :: o in ops
    ensures ByScore(ops, Ranked(cs, Users(m), min))
    ensures m != [] ==> AtMost(ops, Ranked(cs, Users(m), min), Score(m[0]))
  {
    if m != [] && Score(m[0]) >= min {
      var t := m[1..];
      assert Users(m)[1..] == Users(t);
      RankedDescends(ops, cs, t, min);
      RecordKey(m[0]);
      var w, r := With(cs, OpKey(m[0])), Ranked(cs, Users(t), min);
      WithMembers(cs, OpKey(m[0]));
      assert m[0] in ops && Ranked(cs, Users(m), min) == w + r;
      assert t != [] ==> Score(t[0]) <= Score(m[0]);
      assert t == [] ==> r == [];
      hide Score, Ranked, With, OpKey, Stored;
      forall i | 0 <= i < |w| ensures Stored(ops, w[i]) == Score(m[0]) {
        assert w[i] in w;
        StoredOf(ops, m[0], w[i]);
      }
      ByScoreAppend(ops, w, r, Score(m[0]));
    }
  }

  lemma StoredOf(ops: seq<Op>, o: Op, c: Client)
    requires WellFormed(ops) && o in ops && OpKey(o) == ClientKey(c)
    ensures Stored(ops, c) == Score(o)
  {
    var i :| 0 <= i < |ops| && ops[i] == o;
    IndexUnique(ops, i);
  }

  /**
   * The min(slots, qualified) highest-scoring clients that meet the threshold: no client more often than it
   * is there, best first, and whoever qualifies but is left out scores no more than anyone chosen.
   */
  ghost predicate Best(ops: seq<Op>, cs: seq<Client>, slots: nat, min: int) {
    var sel, q := Selection(ops, cs, slots, min), Qualified(ops, cs, min);
    && multiset(sel) <= multiset(q)
    && |sel| == (if |q| <= slots then |q| else slots)
    && ByScore(ops, sel)
    && (forall c :: multiset(sel)[c] < multiset(q)[c] ==> forall s <- sel :: Stored(ops, s) >= Stored(ops, c))
  }

  /** On a channel in scoring order one attempt ops exactly the best. */
  lemma SelectionIsBest(ops: seq<Op>, cs: seq<Client>, slots: nat, min: int)
    requires WellFormed(ops) && Descending(ops) && min >= 0
    ensures Best(ops, cs, slots, min)
  {
    var r := Ranking(ops, cs, min);
    RankingIsQualified(ops, cs, min);
    MatchingMembers(ops, KeysOf(cs));
    MatchingDescends(ops, KeysOf(cs));
    RankedDescends(ops, cs, Matching(ops, KeysOf(cs)), min);
    SameSize(r, Qualified(ops, cs, min));
    hide Stored, Ranked, Matching, Qualified, ByScore;
    PrefixDominates(ops, r, slots);
  }

  /** A threshold below zero is as good as zero: everybody with a record qualifies. */
  lemma {:induction false} RankedFloor(cs: seq<Client>, high: seq<ChanUser>, min: int)
    requires min <= 0
    ensures Ranked(cs, high, min) == Ranked(cs, high, 0)
  {
    if high != [] { RankedFloor(cs, high[1..], min); }
  }

  /** After the threshold has reached zero, one attempt ops the best of all clients with a record. */
  lemma LateSelection(ops: seq<Op>, cs: seq<Client>, slots: nat, min: int)
    requires WellFormed(ops) && Descending(ops) && min <= 0
    ensures Selection(ops, cs, slots, min) == Selection(ops, cs, slots, 0) && Best(ops, cs, slots, 0)
    ensures forall c <- Qualified(ops, cs, 0) :: c in cs && HasKey(ops, ClientKey(c))
    ensures forall c <- cs :: HasKey(ops, ClientKey(c)) ==> c in Qualified(ops, cs, 0)
  {
    RankedFloor(cs, Users(Matching(ops, KeysOf(cs))), min);
    SelectionIsBest(ops, cs, slots, 0);
    hide Best, Matching, Ranked, Qualified, Score;
    forall c | c in cs || c in Qualified(ops, cs, 0)
      ensures c in Qualified(ops, cs, 0) <==> c in cs && HasKey(ops, ClientKey(c))
    {
      QualifiedCount(ops, cs, 0, c);
    }
  }

  lemma PrefixDominates(ops: seq<Op>, r: seq<Client>, slots: nat)
    requires ByScore(ops, r)
    ensures var sel := Take(r, slots);
            && multiset(sel) <= multiset(r)
            && ByScore(ops, sel)
            && (forall c :: multiset(sel)[c] < multiset(r)[c] ==> forall s <- sel :: Stored(ops, s) >= Stored(ops, c))
  {
    hide Stored;
    var n := if |r| <= slots then |r| else slots;
    assert Take(r, slots) == r[..n] && r == r[..n] + r[n..];
    forall c | multiset(r[..n])[c] < multiset(r)[c] ensures forall s <- r[..n] :: Stored(ops, s) >= Stored(ops, c) {
      assert c in multiset(r[n..]);
      Dominated(ops, r, n, c);
    }
  }

  lemma Dominated(ops: seq<Op>, r: seq<Client>, n: nat, c: Client)
    requires ByScore(ops, r) && n <= |r| && c in r[n..]
    ensures forall s <- r[..n] :: Stored(ops, s) >= Stored(ops, c)
  {
    hide Stored;
    var j :| n <= j < |r| && r[j] == c;
    forall s <- r[..n] ensures Stored(ops, s) >= Stored(ops, c) {
      var i :| 0 <= i < n && r[i] == s;
    }
  }

  lemma SameSize(a: seq<Client>, b: seq<Client>)
    requires multiset(a) == multiset(b)
    ensures |a| == |b|
  {
    assert |multiset(a)| == |a| && |multiset(b)| == |b|;
  }

  lemma {:induction false} MatchingFirst(ops: seq<Op>, keys: seq<Key>, i: nat)
    requires i < |ops| && OpKey(ops[i]) in keys && forall k :: 0 <= k < i ==> OpKey(ops[k]) !in keys
    ensures Matching(ops, keys) != [] && Matching(ops, keys)[0] == ops[i]
  {
    if i > 0 { MatchingFirst(ops[1..], keys, i - 1); }
  }

  /** The client behind a record. */
  function Holder(o: Op): (c: Client)
    ensures ClientKey(c) == OpKey(o)
  {
    Client([], o.user, o.host)
  }

  /** A record that comes before a better one hides it: polled for both, the better one is passed over. */
  lemma Hidden(ops: seq<Op>, i: nat, j: nat)
    requires WellFormed(ops) && i < j < |ops| && Score(ops[i]) < Score(ops[j])
    ensures var cs := [Holder(ops[i]), Holder(ops[j])];
            Selection(ops, cs, 1, Score(ops[j])) == [] && Stored(ops, cs[1]) == Score(ops[j])
  {
    var cs := [Holder(ops[i]), Holder(ops[j])];
    var keys := KeysOf(cs);
    assert keys[0] == OpKey(ops[i]) && keys[1] == OpKey(ops[j]);
    StoredOf(ops, ops[j], cs[1]);
    hide Score, OpKey, Holder;
    forall k | 0 <= k < i ensures OpKey(ops[k]) !in keys { }
    MatchingFirst(ops, keys, i);
  }

  /** One attempt on these records chooses the best clients, whoever is there and whatever the threshold. */
  ghost predicate AlwaysBest(ops: seq<Op>) {
    forall cs: seq<Client>, slots: nat, min: int :: min >= 0 ==> Best(ops, cs, slots, min)
  }

  /** Attempts choose the best clients if and only if the records are in scoring order. */
  lemma BestMeansInOrder(ops: seq<Op>)
    requires WellFormed(ops)
    ensures AlwaysBest(ops) <==> Descending(ops)
  {
    if Descending(ops) {
      forall cs: seq<Client>, slots: nat, min: int | min >= 0 ensures Best(ops, cs, slots, min) {
        SelectionIsBest(ops, cs, slots, min);
      }
    } else {
      var i, j :| 0 <= i < j < |ops| && Score(ops[i]) < Score(ops[j]);
      HiddenIsNotBest(ops, i, j);
    }
  }

  lemma HiddenIsNotBest(ops: seq<Op>, i: nat, j: nat)
    requires WellFormed(ops) && i < j < |ops| && Score(ops[i]) < Score(ops[j])
    ensures !Best(ops, [Holder(ops[i]), Holder(ops[j])], 1, Score(ops[j]))
  {
    var cs, min := [Holder(ops[i]), Holder(ops[j])], Score(ops[j]);
    Hidden(ops, i, j);
    hide Score, Selection, Stored;
    QualifiedCount(ops, cs, min, cs[1]);
    assert cs[1] in multiset(Qualified(ops, cs, min));
    hide Qualified;
  }

  // ---------------------------------------------------------------- the two fix functions

  const OCF_NUM_CLIENTS_OPPED := 5

  function Wanted(setting: int): nat {
    if setting < 1 then OCF_NUM_CLIENTS_OPPED else setting
  }

  /** What the database says of the channel being read; nothing when it has no entry. */
  ghost function ReadOps(c: Channel?): seq<Op>
    requires c != null ==> c.Valid()
    reads c, if c == null then {} else {c.chanop, c.channote}
  {
    if c == null then [] else c.View().ops
  }

  /** Polls the scores of the non-opped clients, into a zeroed array of n entries. */
  method Poll(c: Channel?, cs: seq<Client>, n: nat) returns (found: nat, high: seq<ChanUser>)
    requires (c != null ==> c.Valid()) && n >= 1
    ensures found <= n && |high| == n && (found == 0 ==> high[0].score == 0)
    ensures forall slots: nat, min: int :: slots <= n && BlanksMatchNobody(cs, min) ==>
              Polled(ReadOps(c), cs, found, high, slots, min)
  {
    var users, hosts := DistinctUserHosts(cs);
    var t: seq<ChanUser> := [];
    if c != null {
      t := TopUserHosts(c, users, hosts, n);
    }
    ghost var keys, ops := Keys(users, hosts), ReadOps(c);
    assert t == Users(Take(Matching(ops, keys), n));
    found, high := |t|, Padded(t, n);
    hide Matching, Polled, BlanksMatchNobody;
    forall slots: nat, min: int | slots <= n && BlanksMatchNobody(cs, min) ensures Polled(ops, cs, found, high, slots, min) {
      PollSelects(ops, cs, keys, n, slots, min);
    }
  }

  lemma {:induction false} RankedMembers(cs: seq<Client>, high: seq<ChanUser>, min: int)
    ensures forall c <- Ranked(cs, high, min) :: c in cs
  {
    if high != [] {
      WithMembers(cs, UserKey(high[0]));
      RankedMembers(cs, high[1..], min);
    }
  }

  /** There are enough ops once more clients have been opped. */
  predicate Enough(numOps: nat, opped: nat, numClients: nat, wanted: nat) {
    numOps + opped >= numClients || numOps + opped >= wanted
  }

  /** That is, once the least of all clients, the setting, and five if there is no setting, have ops. */
  lemma EnoughExact(numOps: nat, opped: nat, numClients: nat, setting: int)
    ensures var wanted := if setting >= 1 then setting else 5;
            Enough(numOps, opped, numClients, Wanted(setting))
            <==> numOps + opped >= if wanted <= numClients then wanted else numClients
  {
  }

  /** ocf_manual_fix_stage_two on an existing channel, t seconds after the first possible attempt. */
  method StageTwo(c: Channel?, voiced: seq<Client>, peons: seq<Client>, numOps: nat, numClients: nat,
                  setting: int, maxScore: nat, t: int)
    returns (fixed: bool, opped: seq<Client>)
    requires c != null ==> c.Valid()
    ensures |opped| <= Wanted(setting) && forall o <- opped :: o in voiced + peons
    ensures numOps >= Wanted(setting) ==> fixed && opped == []
    ensures numOps < Wanted(setting) && BlanksMatchNobody(voiced + peons, MinScore(maxScore, t)) ==>
              && opped == Selection(ReadOps(c), voiced + peons, Wanted(setting) - numOps, MinScore(maxScore, t))
              && (fixed <==> opped != [] && Enough(numOps, |opped|, numClients, Wanted(setting)))
  {
    var n := Wanted(setting);
    if numOps >= n { return true, []; }
    var min := MinScore(maxScore, t);
    var found, high := Poll(c, voiced + peons, n);
    RankedMembers(voiced + peons, high, min);
    hide MinScore, Selection, Ranked, BlanksMatchNobody;
    assert BlanksMatchNobody(voiced + peons, min) ==> Polled(ReadOps(c), voiced + peons, found, high, n - numOps, min);
    if found == 0 || high[0].score < min { return false, []; }
    opped := FindScoredNicks(voiced, peons, high, n - numOps, min);
    fixed := Enough(numOps, |opped|, numClients, n);
  }

  /** ocf_fix_opless_channel on an existing channel, t seconds after the autofix started. */
  method FixOpless(c: Channel?, voiced: seq<Client>, peons: seq<Client>, numOps: nat, numClients: nat,
                   setting: int, maxScore: nat, t: int)
    returns (fixed: bool, opped: seq<Client>)
    requires c != null ==> c.Valid()
    ensures |opped| <= Wanted(setting) && forall o <- opped :: o in voiced + peons
    ensures maxScore as real <= ABS_END * OCF_MAX_SCORE as real ==> !fixed && opped == []
    ensures maxScore as real > ABS_END * OCF_MAX_SCORE as real && numOps >= Wanted(setting) ==> fixed && opped == []
    ensures maxScore as real > ABS_END * OCF_MAX_SCORE as real && numOps < Wanted(setting)
            && BlanksMatchNobody(voiced + peons, MinScore(maxScore, t)) ==>
              && opped == Selection(ReadOps(c), voiced + peons, Wanted(setting) - numOps, MinScore(maxScore, t))
              && (fixed <==> (numOps > 0 || opped != []) && Enough(numOps, |opped|, numClients, Wanted(setting)))
  {
    if maxScore as real <= ABS_END * OCF_MAX_SCORE as real { return false, []; }
    var n := Wanted(setting);
    if numOps >= n { return true, []; }
    var min := MinScore(maxScore, t);
    var found, high := Poll(c, voiced + peons, n);
    RankedMembers(voiced + peons, high, min);
    hide MinScore, Selection, Ranked, BlanksMatchNobody;
    assert BlanksMatchNobody(voiced + peons, min) ==> Polled(ReadOps(c), voiced + peons, found, high, n - numOps, min);
    if (found == 0 || high[0].score < min) && numOps == 0 { return false, []; }
    opped := FindScoredNicks(voiced, peons, high, n - numOps, min);
    fixed := Enough(numOps, |opped|, numClients, n);
  }
}
