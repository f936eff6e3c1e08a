/** What gathering many channels, up to a whole round, does to the scores. */
module GatherTable {
  import opened CStrings
  import opened OpRecords
  import opened Channels
  import opened ChannelIndex
  import opened DbModel
  import opened ScoreHistory
  import opened GatherPoints
  import opened Gather

  /** No two channels have the same name to the server. */
  ghost predicate DifferentNames(list: seq<Gather.Live>) {
    forall i, j :: 0 <= i < j < |list| ==> IrcFold(list[i].name) != IrcFold(list[j].name)
  }

  /** Gathering channel ch gives user@host k on channel chan its point. */
  ghost predicate Rewards(db: Db, ch: Gather.Live, min: nat, need: Status, chan: CString, k: Key) {
    && (ch.users > STATIC_USERHOSTS || ch.users >= min) && Bounded(ch.name, MAXCHANNELNAME)
    && IrcFold(ch.name) == chan && Gets(OpsOf(db, chan), Firsts(ch.chanops, need), k)
  }

  ghost predicate Earns(db: Db, list: seq<Gather.Live>, min: nat, need: Status, chan: CString, k: Key) {
    exists i :: 0 <= i < |list| && Rewards(db, list[i], min, need, chan, k)
  }

  // ---------------------------------------------------------------- what gathering one channel leaves alone

  ghost predicate SameRecords(s: seq<Op>, t: seq<Op>) {
    |s| == |t| && forall k :: HasKey(s, k) <==> HasKey(t, k)
  }

  lemma ClosingKeeps(db: Db, id: CString)
    requires Sane(db)
    ensures SameRecords(OpsOf(Closed(db), id), OpsOf(db, id)) && Closed(db).day == db.day && Closed(db).write.None?
  {
    if db.write == Some(id) {
      assert ValidChan(Written(db));
      SortKeepsKeys(Written(db).ops);
    }
    hide ValidMap, Id, HasKey, StableSort;
  }

  lemma OpensOther(db: Db, name: CString, id: CString)
    requires IrcFold(name) != id
    ensures OpsOf(Opened(db, name), id) == OpsOf(db, id)
  {
    hide IrcFold;
  }

  /** Opening one channel at most sorts another. */
  lemma OpeningKeeps(db: Db, name: CString, id: CString)
    requires Sane(db)
    ensures var r := Step(db, SetWrite(Some(name)));
            && Sane(r) && r.day == db.day
            && r.write == (if Bounded(name, MAXCHANNELNAME) then Some(IrcFold(name)) else None)
            && (IrcFold(name) != id ==> SameRecords(OpsOf(r, id), OpsOf(db, id)))
  {
    hide Step, Sane, Closed, OpsOf, SameRecords, IrcFold;
    StepSane(db, SetWrite(Some(name)));
    StepOpens(db, Some(name));
    ClosingKeeps(db, id);
    if IrcFold(name) != id { OpensOther(Closed(db), name, id); }
  }

  lemma RegisteringKeeps(db: Db, us: seq<UserHost>, id: CString)
    requires Sane(db) && db.write != Some(id)
    ensures OpsOf(RunFrom(db, Registrations(us)), id) == OpsOf(db, id)
  {
    hide RunFrom, Registrations, RegisterAll;
    if db.write.Some? { RegistrationsRun(db, us); } else { RegistrationsIdle(db, us); }
  }

  lemma RegisteringDay(db: Db, us: seq<UserHost>)
    requires Sane(db)
    ensures RunFrom(db, Registrations(us)).day == db.day
  {
    hide RunFrom, Registrations, RegisterAll;
    if db.write.Some? { RegistrationsRun(db, us); } else { RegistrationsIdle(db, us); }
  }

  lemma ChannelKeeps(db: Db, name: CString, us: seq<UserHost>, id: CString)
    requires Sane(db)
    ensures var r := RunFrom(db, ChannelEvents(name, us));
            r.day == db.day && (IrcFold(name) != id ==> SameRecords(OpsOf(r, id), OpsOf(db, id)))
  {
    hide RunFrom, ChannelEvents, Registrations, Step, OpsOf, SameRecords, Sane, IrcFold;
    ChannelRun(db, name, us);
    OpeningKeeps(db, name, id);
    var d1 := Step(db, SetWrite(Some(name)));
    RegisteringDay(d1, us);
    if IrcFold(name) != id { RegisteringKeeps(d1, us, id); }
  }

  lemma LiveKeeps(db: Db, ch: Gather.Live, min: nat, need: Status, id: CString)
    requires Sane(db)
    ensures var r := RunFrom(db, LiveEvents(ch, min, need));
            r.day == db.day && (IrcFold(ch.name) != id ==> SameRecords(OpsOf(r, id), OpsOf(db, id)))
  {
    hide RunFrom, ChannelEvents, OpsOf, Sane, IrcFold, HasKey;
    ChannelKeeps(db, ch.name, Firsts(ch.chanops, need), id);
    NoEvents(db);
  }

  lemma LivePoints(db: Db, ch: Gather.Live, min: nat, need: Status, chan: CString, k: Key, slot: nat)
    requires Sane(db) && slot < DAYSAMPLES
    ensures Counter(RunFrom(db, LiveEvents(ch, min, need)), chan, k, slot)
            == if slot == db.day && Rewards(db, ch, min, need, chan, k)
               then (Counter(db, chan, k, slot) + 1) % WRAP else Counter(db, chan, k, slot)
  {
    hide RunFrom, ChannelEvents, OpsOf, Sane, IrcFold, Counter, Firsts, Gets;
    NoEvents(db);
    FirstsOnce(ch.chanops, need, k);
    ChannelPoints(db, ch.name, Firsts(ch.chanops, need), chan, k, slot);
  }

  // ---------------------------------------------------------------- a list of channels

  /** The other channels keep their records and the day. */
  lemma {:induction false} BucketKeeps(db: Db, list: seq<Gather.Live>, n: nat, min: nat, need: Status, id: CString)
    requires Sane(db) && n <= |list|
    ensures var r := RunFrom(db, BucketEvents(list[..n], min, need));
            && r.day == db.day
            && ((forall i :: 0 <= i < n ==> IrcFold(list[i].name) != id) ==> SameRecords(OpsOf(r, id), OpsOf(db, id)))
  {
    hide RunFrom, LiveEvents, OpsOf, Sane, IrcFold, HasKey;
    if n == 0 {
      NoEvents(db);
    } else {
      BucketKeeps(db, list, n - 1, min, need, id);
      BucketStep(db, list, n - 1, min, need);
      LiveKeeps(RunFrom(db, BucketEvents(list[..n - 1], min, need)), list[n - 1], min, need, id);
    }
  }

  /** Whether the next channel of the list rewards somebody is decided by the records before the round. */
  lemma RewardsBefore(db: Db, list: seq<Gather.Live>, n: nat, min: nat, need: Status, chan: CString, k: Key)
    requires Sane(db) && n < |list| && DifferentNames(list)
    ensures var p := RunFrom(db, BucketEvents(list[..n], min, need));
            Rewards(p, list[n], min, need, chan, k) <==> Rewards(db, list[n], min, need, chan, k)
  {
    hide RunFrom, BucketEvents, OpsOf, Sane, IrcFold, HasKey, Gets;
    if IrcFold(list[n].name) == chan {
      BucketKeeps(db, list, n, min, need, chan);
      var p := RunFrom(db, BucketEvents(list[..n], min, need));
      GetsSame(OpsOf(p, chan), OpsOf(db, chan), Firsts(list[n].chanops, need), k);
    }
  }

  lemma EarnsNext(db: Db, list: seq<Gather.Live>, n: nat, min: nat, need: Status, chan: CString, k: Key)
    requires n < |list| && DifferentNames(list)
    ensures Earns(db, list[..n + 1], min, need, chan, k)
            <==> Earns(db, list[..n], min, need, chan, k) || Rewards(db, list[n], min, need, chan, k)
    ensures !(Earns(db, list[..n], min, need, chan, k) && Rewards(db, list[n], min, need, chan, k))
  {
    hide OpsOf, IrcFold, Gets;
    assert forall i :: 0 <= i < n ==> list[..n][i] == list[i] && list[..n + 1][i] == list[i];
    assert list[..n + 1][n] == list[n];
  }

  /**
   * Gathering channels with different names: every user@host of a qualifying op of a large enough channel that
   * can be recorded, and for which there is room, gets exactly one point for the day on that channel, and
   * nothing else changes anywhere.
   */
  lemma {:induction false} BucketPoints(db: Db, list: seq<Gather.Live>, n: nat, min: nat, need: Status,
                                        chan: CString, k: Key, slot: nat)
    requires Sane(db) && slot < DAYSAMPLES && n <= |list| && DifferentNames(list)
    ensures Counter(RunFrom(db, BucketEvents(list[..n], min, need)), chan, k, slot)
            == if slot == db.day && Earns(db, list[..n], min, need, chan, k)
               then (Counter(db, chan, k, slot) + 1) % WRAP else Counter(db, chan, k, slot)
  {
    hide RunFrom, LiveEvents, OpsOf, Sane, IrcFold, Counter, DifferentNames, Rewards;
    if n == 0 {
      NoEvents(db);
    } else {
      var p := RunFrom(db, BucketEvents(list[..n - 1], min, need));
      BucketPoints(db, list, n - 1, min, need, chan, k, slot);
      BucketStep(db, list, n - 1, min, need);
      BucketKeeps(db, list, n - 1, min, need, chan);
      LivePoints(p, list[n - 1], min, need, chan, k, slot);
      RewardsBefore(db, list, n - 1, min, need, chan, k);
      EarnsNext(db, list, n - 1, min, need, chan, k);
    }
  }

  // ---------------------------------------------------------------- a table of buckets

  ghost function AllChannels(table: seq<seq<Gather.Live>>): seq<Gather.Live> {
    if table == [] then [] else AllChannels(table[..|table| - 1]) + table[|table| - 1]
  }

  lemma {:induction false} BucketConcat(a: seq<Gather.Live>, b: seq<Gather.Live>, min: nat, need: Status)
    ensures BucketEvents(a + b, min, need) == BucketEvents(a, min, need) + BucketEvents(b, min, need)
  {
    hide LiveEvents;
    if b == [] {
      assert a + b == a;
    } else {
      assert (a + b)[..|a + b| - 1] == a + b[..|b| - 1];
      BucketConcat(a, b[..|b| - 1], min, need);
    }
  }

  lemma {:induction false} TableIsList(table: seq<seq<Gather.Live>>, min: nat, need: Status)
    ensures TableEvents(table, min, need) == BucketEvents(AllChannels(table), min, need)
  {
    if table != [] {
      var p := table[..|table| - 1];
      TableIsList(p, min, need);
      BucketConcat(AllChannels(p), table[|table| - 1], min, need);
    }
  }

  /** A round, or the part of it that one call works off: one point for everybody who earns it, and nothing else. */
  lemma RoundPoints(db: Db, table: seq<seq<Gather.Live>>, min: nat, need: Status, chan: CString, k: Key, slot: nat)
    requires Sane(db) && slot < DAYSAMPLES && DifferentNames(AllChannels(table))
    ensures Counter(RunFrom(db, TableEvents(table, min, need)), chan, k, slot)
            == if slot == db.day && Earns(db, AllChannels(table), min, need, chan, k)
               then (Counter(db, chan, k, slot) + 1) % WRAP else Counter(db, chan, k, slot)
  {
    var list := AllChannels(table);
    assert list[..|list|] == list;
    TableIsList(table, min, need);
    BucketPoints(db, list, |list|, min, need, chan, k, slot);
    hide *;
  }

  // ---------------------------------------------------------------- one channel of the round, in plain terms

  /** One more op of the list does not need more than one more record. */
  lemma {:induction false} NewcomersBound(s: seq<Op>, us: seq<UserHost>)
    ensures Newcomers(s, us) <= |us|
  {
    if us != [] { NewcomersBound(s, us[..|us| - 1]); }
  }

  /** Somebody of the list, short enough to be recorded, has this user@host. */
  ghost predicate Lists(us: seq<UserHost>, k: Key) {
    exists u <- us :: KeyOf(u.user, u.host) == k && |u.user| < 40 && |u.host| < 63
  }

  /** With a record already, or room for the whole list, being listed is enough. */
  lemma GetsIfListed(s: seq<Op>, us: seq<UserHost>, k: Key)
    requires HasKey(s, k) || |s| + |us| <= MAXOPCOUNT
    ensures Gets(s, us, k) <==> Lists(us, k)
  {
    if Gets(s, us, k) {
      var i: nat :| Scores(s, us, i) && KeyOfUser(us[i]) == k;
      assert us[i] in us;
    }
    if Lists(us, k) {
      var u :| u in us && KeyOf(u.user, u.host) == k && |u.user| < 40 && |u.host| < 63;
      var i: nat :| i < |us| && us[i] == u;
      NewcomersBound(s, us[..i]);
      hide HasKey, Newcomers;
      assert Scores(s, us, i) && KeyOfUser(us[i]) == k;
    }
  }

  lemma KeyLength(a: UserHost, b: UserHost)
    requires KeyOf(a.user, a.host) == KeyOf(b.user, b.host)
    ensures |a.user| == |b.user| && |a.host| == |b.host|
  {
    assert |AsciiFold(a.user)| == |AsciiFold(b.user)| && |AsciiFold(a.host)| == |AsciiFold(b.host)|;
  }

  /** An op of the channel that counts and can be recorded has this user@host. */
  ghost predicate OppedAs(cs: seq<UserHost>, ident: bool, reverse: bool, k: Key) {
    exists c <- cs :: KeyOf(c.user, c.host) == k && |c.user| < 40 && |c.host| < 63 && Eligible(c, ident, reverse)
  }

  lemma ListedExact(cs: seq<UserHost>, need: Status, k: Key)
    ensures Lists(Firsts(cs, need), k) <==> OppedAs(cs, need.ident, need.reverse, k)
  {
    FirstsExact(cs, need, k);
    hide KeyOf, Eligible, Firsts;
    if Lists(Firsts(cs, need), k) {
      var u :| u in Firsts(cs, need) && KeyOf(u.user, u.host) == k && |u.user| < 40 && |u.host| < 63;
      var c :| c in cs && KeyOf(c.user, c.host) == k && Eligible(c, need.ident, need.reverse);
      KeyLength(u, c);
    }
    if OppedAs(cs, need.ident, need.reverse, k) {
      var c :| c in cs && KeyOf(c.user, c.host) == k && |c.user| < 40 && |c.host| < 63
               && Eligible(c, need.ident, need.reverse);
      var u :| u in Firsts(cs, need) && KeyOf(u.user, u.host) == k;
      KeyLength(c, u);
    }
  }

  /**
   * A channel of the round: a user@host that has a record, or for which there is sure to be room, gets its point
   * of the day exactly if the channel is large enough and an op with that user@host counts. Nothing else changes.
   */
  lemma RoundOnChannel(db: Db, table: seq<seq<Gather.Live>>, min: nat, need: Status, i: nat, k: Key, slot: nat)
    requires Sane(db) && slot < DAYSAMPLES && DifferentNames(AllChannels(table)) && i < |AllChannels(table)|
    requires var ch := AllChannels(table)[i]; var ops := OpsOf(db, IrcFold(ch.name));
             HasKey(ops, k) || |ops| + |ch.chanops| <= 256
    ensures var ch := AllChannels(table)[i]; var id := IrcFold(ch.name);
            Counter(RunFrom(db, TableEvents(table, min, need)), id, k, slot)
            == if slot == db.day && (ch.users > 1024 || ch.users >= min) && |ch.name| < 51
                  && OppedAs(ch.chanops, need.ident, need.reverse, k)
               then (Counter(db, id, k, slot) + 1) % 0x1_0000 else Counter(db, id, k, slot)
  {
    hide RunFrom, TableEvents, OpsOf, Sane, IrcFold, Counter, HasKey, Gets, Lists, OppedAs;
    var list := AllChannels(table);
    var id := IrcFold(list[i].name);
    RoundPoints(db, table, min, need, id, k, slot);
    FirstsOnce(list[i].chanops, need, k);
    GetsIfListed(OpsOf(db, id), Firsts(list[i].chanops, need), k);
    ListedExact(list[i].chanops, need, k);
    OnlyThis(db, list, min, need, i, k);
  }

  lemma OnlyThis(db: Db, list: seq<Gather.Live>, min: nat, need: Status, i: nat, k: Key)
    requires DifferentNames(list) && i < |list|
    ensures Earns(db, list, min, need, IrcFold(list[i].name), k)
            <==> Rewards(db, list[i], min, need, IrcFold(list[i].name), k)
  {
    hide OpsOf, IrcFold, Gets;
  }
}
