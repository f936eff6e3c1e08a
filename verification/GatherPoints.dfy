/** What gathering one channel does to the scores. */
module GatherPoints {
  import opened CStrings
  import opened OpRecords
  import opened Channels
  import opened ChannelIndex
  import opened DbModel
  import opened ScoreHistory

  datatype UserHost = UserHost(user: CString, host: CString)

  function KeyOfUser(u: UserHost): Key {
    KeyOf(u.user, u.host)
  }

  ghost predicate Recordable(u: UserHost) {
    Bounded(u.user, USERLEN) && Bounded(u.host, HOSTLEN)
  }

  ghost predicate DifferentKeys(us: seq<UserHost>) {
    forall i, j :: 0 <= i < j < |us| ==> KeyOfUser(us[i]) != KeyOfUser(us[j])
  }

  // ---------------------------------------------------------------- registering a list of user@hosts

  ghost function RegisterAll(s: seq<Op>, us: seq<UserHost>, d: nat): (r: seq<Op>)
    requires WellFormed(s) && d < DAYSAMPLES
    ensures WellFormed(r)
  {
    if us == [] then s
    else
      var p, u := RegisterAll(s, us[..|us| - 1], d), us[|us| - 1];
      RegisteredWellFormed(p, u.user, u.host, d);
      if Recordable(u) then Registered(p, u.user, u.host, d) else p
  }

  /** How many of the user@hosts would need a new record. */
  ghost function Newcomers(s: seq<Op>, us: seq<UserHost>): nat {
    if us == [] then 0
    else
      var u := us[|us| - 1];
      Newcomers(s, us[..|us| - 1]) + if Recordable(u) && !HasKey(s, KeyOfUser(u)) then 1 else 0
  }

  /** The i-th user@host gets its point: it has a record, or there is still room when its turn comes. */
  ghost predicate Scores(s: seq<Op>, us: seq<UserHost>, i: nat) {
    && i < |us| && Recordable(us[i])
    && (HasKey(s, KeyOfUser(us[i])) || |s| + Newcomers(s, us[..i]) < MAXOPCOUNT)
  }

  ghost predicate Gets(s: seq<Op>, us: seq<UserHost>, k: Key) {
    exists i: nat :: Scores(s, us, i) && KeyOfUser(us[i]) == k
  }

  lemma GetsSnoc(s: seq<Op>, us: seq<UserHost>, k: Key)
    requires us != []
    ensures var n := |us| - 1;
            Gets(s, us, k) <==> Gets(s, us[..n], k) || (Scores(s, us, n) && KeyOfUser(us[n]) == k)
  {
    var n := |us| - 1;
    var p := us[..n];
    hide Recordable, HasKey, Newcomers;
    forall i: nat | i < n ensures Scores(s, us, i) == Scores(s, p, i) && us[i] == p[i] { assert p[..i] == us[..i]; }
  }

  lemma NotYet(s: seq<Op>, us: seq<UserHost>)
    requires us != [] && DifferentKeys(us)
    ensures !Gets(s, us[..|us| - 1], KeyOfUser(us[|us| - 1]))
  {
  }

  /** Which records there are afterwards. */
  ghost predicate Grows(s: seq<Op>, us: seq<UserHost>, r: seq<Op>, k: Key) {
    var n := |s| + Newcomers(s, us);
    && |r| == (if n < MAXOPCOUNT then n else MAXOPCOUNT)
    && (HasKey(r, k) <==> HasKey(s, k) || Gets(s, us, k))
  }

  lemma GrowsStep(s: seq<Op>, us: seq<UserHost>, r: seq<Op>, d: nat, k: Key)
    requires us != [] && WellFormed(r) && d < DAYSAMPLES && DifferentKeys(us)
    requires Grows(s, us[..|us| - 1], r, k) && Grows(s, us[..|us| - 1], r, KeyOfUser(us[|us| - 1]))
    ensures var u := us[|us| - 1];
            && Grows(s, us, if Recordable(u) then Registered(r, u.user, u.host, d) else r, k)
            && (Scores(s, us, |us| - 1) <==> Recordable(u) && Admits(r, KeyOfUser(u)))
  {
    var u := us[|us| - 1];
    GetsSnoc(s, us, k);
    NotYet(s, us);
    if Recordable(u) { RegisterOne(r, u, d, k, 0); }
    hide CounterOps, Registered, WellFormed, HasKey, Gets, KeyOf;
  }

  lemma {:induction false} RegisterAllKeys(s: seq<Op>, us: seq<UserHost>, d: nat, k: Key)
    requires WellFormed(s) && d < DAYSAMPLES && |s| <= MAXOPCOUNT && DifferentKeys(us)
    ensures Grows(s, us, RegisterAll(s, us, d), k)
  {
    if us == [] {
      assert !Gets(s, us, k);
    } else {
      var p := us[..|us| - 1];
      RegisterAllKeys(s, p, d, k);
      RegisterAllKeys(s, p, d, KeyOfUser(us[|us| - 1]));
      GrowsStep(s, us, RegisterAll(s, p, d), d, k);
      hide Grows, Registered, Recordable;
    }
  }

  /** Each user@host that gets a point gets exactly one, and no other counter moves. */
  lemma {:induction false} RegisterAllPoints(s: seq<Op>, us: seq<UserHost>, d: nat, k: Key, slot: nat)
    requires WellFormed(s) && d < DAYSAMPLES && slot < DAYSAMPLES && |s| <= MAXOPCOUNT && DifferentKeys(us)
    ensures CounterOps(RegisterAll(s, us, d), k, slot) ==
            if slot == d && Gets(s, us, k) then (CounterOps(s, k, slot) + 1) % WRAP else CounterOps(s, k, slot)
  {
    if us == [] {
      assert !Gets(s, us, k);
    } else {
      var p, u := us[..|us| - 1], us[|us| - 1];
      RegisterAllPoints(s, p, d, k, slot);
      RegisterAllKeys(s, p, d, k);
      RegisterAllKeys(s, p, d, KeyOfUser(u));
      PointStep(s, us, RegisterAll(s, p, d), d, k, slot);
      hide Grows, Registered, Recordable, Gets, CounterOps;
    }
  }

  lemma PointStep(s: seq<Op>, us: seq<UserHost>, r: seq<Op>, d: nat, k: Key, slot: nat)
    requires us != [] && WellFormed(s) && WellFormed(r) && d < DAYSAMPLES && slot < DAYSAMPLES && DifferentKeys(us)
    requires Grows(s, us[..|us| - 1], r, k) && Grows(s, us[..|us| - 1], r, KeyOfUser(us[|us| - 1]))
    requires CounterOps(r, k, slot) == if slot == d && Gets(s, us[..|us| - 1], k)
                                       then (CounterOps(s, k, slot) + 1) % WRAP else CounterOps(s, k, slot)
    ensures var u := us[|us| - 1];
            var t := if Recordable(u) then Registered(r, u.user, u.host, d) else r;
            && WellFormed(t)
            && CounterOps(t, k, slot) == if slot == d && Gets(s, us, k)
                                         then (CounterOps(s, k, slot) + 1) % WRAP else CounterOps(s, k, slot)
  {
    var u := us[|us| - 1];
    GrowsStep(s, us, r, d, k);
    GetsSnoc(s, us, k);
    NotYet(s, us);
    if Recordable(u) { RegisterOne(r, u, d, k, slot); }
    hide CounterOps, Registered, WellFormed, HasKey, Gets, KeyOf, Grows, Scores, Recordable;
  }

  lemma RegisterOne(s: seq<Op>, u: UserHost, d: nat, k: Key, slot: nat)
    requires WellFormed(s) && d < DAYSAMPLES && slot < DAYSAMPLES
    ensures var r, key := Registered(s, u.user, u.host, d), KeyOfUser(u);
            var admits := HasKey(s, key) || |s| < MAXOPCOUNT;
            && WellFormed(r) && |r| == (|s| + if !HasKey(s, key) && admits then 1 else 0)
            && (HasKey(r, k) <==> HasKey(s, k) || (k == key && admits))
            && CounterOps(r, k, slot) == if k == key && slot == d && admits then (CounterOps(s, k, slot) + 1) % WRAP
                                         else CounterOps(s, k, slot)
  {
    RegisteredWellFormed(s, u.user, u.host, d);
    CounterRegistered(s, u.user, u.host, d, k, slot);
    RegisteredLength(s, u.user, u.host, d);
    hide CounterOps, Registered, WellFormed, HasKey, KeyOf;
  }

  lemma RegisteredLength(s: seq<Op>, user: CString, host: CString, d: nat)
    requires WellFormed(s) && d < DAYSAMPLES
    ensures |Registered(s, user, host, d)| ==
            |s| + if !HasKey(s, KeyOf(user, host)) && |s| < MAXOPCOUNT then 1 else 0
  {
  }

  // ---------------------------------------------------------------- the events of one channel

  ghost function RunFrom(db: Db, es: seq<Event>): (r: Db)
    requires Sane(db)
    ensures Sane(r)
  {
    if es == [] then db
    else
      var p := RunFrom(db, es[..|es| - 1]);
      StepSane(p, es[|es| - 1]);
      Step(p, es[|es| - 1])
  }

  lemma {:induction false} RunFromConcat(db: Db, es: seq<Event>, fs: seq<Event>)
    requires Sane(db)
    ensures RunFrom(db, es + fs) == RunFrom(RunFrom(db, es), fs)
  {
    if fs == [] {
      assert es + fs == es;
    } else {
      assert (es + fs)[..|es + fs| - 1] == es + fs[..|fs| - 1];
      hide Step;
      RunFromConcat(db, es, fs[..|fs| - 1]);
    }
  }

  ghost function Registrations(us: seq<UserHost>): (es: seq<Event>)
    ensures |es| == |us| && forall i :: 0 <= i < |us| ==> es[i] == Event.RegisterOp(us[i].user, us[i].host)
  {
    seq(|us|, i requires 0 <= i < |us| => Event.RegisterOp(us[i].user, us[i].host))
  }

  ghost function ChannelEvents(name: CString, us: seq<UserHost>): seq<Event> {
    [SetWrite(Some(name))] + Registrations(us)
  }

  /** The op records of a channel, by folded name. */
  ghost function OpsOf(db: Db, id: CString): seq<Op> {
    if id in db.chans then db.chans[id].ops else []
  }

  ghost predicate SameBut(a: Db, b: Db, id: CString) {
    a.write == b.write && a.day == b.day && a.chans.Keys == b.chans.Keys
    && forall k <- a.chans.Keys :: k != id ==> a.chans[k] == b.chans[k]
  }

  lemma {:induction false} RegistrationsRun(db: Db, us: seq<UserHost>)
    requires Sane(db) && db.write.Some?
    ensures var r := RunFrom(db, Registrations(us));
            SameBut(r, db, db.write.value)
            && r.chans[db.write.value].ops == RegisterAll(Written(db).ops, us, db.day)
  {
    if us == [] {
      assert ValidChan(Written(db));
    } else {
      var n := |us| - 1;
      RegistrationsRun(db, us[..n]);
      RegistrationsSnoc(db, us);
      var p := RunFrom(db, Registrations(us[..n]));
      RegisterStep(p, us[n]);
      assert RegisterAll(Written(db).ops, us, db.day) ==
             if Recordable(us[n]) then Registered(Written(p).ops, us[n].user, us[n].host, db.day) else Written(p).ops;
      hide RunFrom, RegisterAll, Step, Registered, WellFormed, Recordable, Sane;
    }
  }

  lemma RegistrationsSnoc(db: Db, us: seq<UserHost>)
    requires Sane(db) && us != []
    ensures var n := |us| - 1;
            RunFrom(db, Registrations(us))
            == Step(RunFrom(db, Registrations(us[..n])), Event.RegisterOp(us[n].user, us[n].host))
  {
    assert Registrations(us)[..|us| - 1] == Registrations(us[..|us| - 1]);
    hide Step;
  }

  lemma RegisterStep(db: Db, u: UserHost)
    requires Sane(db) && db.write.Some?
    ensures WellFormed(Written(db).ops) && db.day < DAYSAMPLES
    ensures var r := Step(db, Event.RegisterOp(u.user, u.host));
            SameBut(r, db, db.write.value)
            && r.chans[db.write.value].ops
               == if Recordable(u) then Registered(Written(db).ops, u.user, u.host, db.day) else Written(db).ops
  {
    assert ValidChan(Written(db));
    hide Registered, WellFormed, Id;
  }

  lemma {:induction false} RegistrationsIdle(db: Db, us: seq<UserHost>)
    requires Sane(db) && db.write.None?
    ensures RunFrom(db, Registrations(us)) == db
  {
    if us != [] {
      RegistrationsIdle(db, us[..|us| - 1]);
      RegistrationsSnoc(db, us);
    }
  }

  lemma {:induction false} NewcomersSame(s: seq<Op>, t: seq<Op>, us: seq<UserHost>)
    requires forall k :: HasKey(s, k) <==> HasKey(t, k)
    ensures Newcomers(s, us) == Newcomers(t, us)
  {
    hide HasKey, Recordable;
    if us != [] { NewcomersSame(s, t, us[..|us| - 1]); }
  }

  /** Who gets a point depends on which records there are, not on their order. */
  lemma GetsSame(s: seq<Op>, t: seq<Op>, us: seq<UserHost>, k: Key)
    requires |s| == |t| && forall k :: HasKey(s, k) <==> HasKey(t, k)
    ensures Gets(s, us, k) <==> Gets(t, us, k)
  {
    forall i: nat | i < |us| ensures Scores(s, us, i) <==> Scores(t, us, i) {
      NewcomersSame(s, t, us[..i]);
      hide HasKey, Recordable, Newcomers;
    }
  }

  lemma SortKeepsKeys(s: seq<Op>)
    requires WellFormed(s)
    ensures |StableSort(s)| == |s| && forall k :: HasKey(StableSort(s), k) <==> HasKey(s, k)
  {
    SortedWellFormed(s);
    var t := StableSort(s);
    forall k ensures HasKey(t, k) <==> HasKey(s, k) {
      hide OpKey, StableSort;
      if HasKey(s, k) { assert s[IndexOf(s, k)] in t; }
      if HasKey(t, k) { assert t[IndexOf(t, k)] in s; }
    }
  }

  /** Opening a channel for writing changes no counter and no set of records. */
  lemma OpenedPoints(db: Db, name: CString, us: seq<UserHost>, chan: CString, k: Key, slot: nat)
    requires Sane(db) && slot < DAYSAMPLES && Bounded(name, MAXCHANNELNAME)
    ensures var r := Step(db, SetWrite(Some(name)));
            && Sane(r) && r.write == Some(IrcFold(name)) && r.day == db.day
            && Counter(r, chan, k, slot) == Counter(db, chan, k, slot)
            && (Gets(Written(r).ops, us, k) <==> Gets(OpsOf(db, IrcFold(name)), us, k))
  {
    ClosedSane(db);
    CounterClosed(db, chan, k, slot);
    CounterOpened(Closed(db), name, chan, k, slot);
    hide Counter;
    var id := IrcFold(name);
    if db.write == Some(id) {
      assert ValidChan(Written(db));
      SortKeepsKeys(Written(db).ops);
      GetsSame(StableSort(Written(db).ops), Written(db).ops, us, k);
    }
    hide Gets, ValidMap, Id, IrcFold;
  }

  /**
   * Gathering one channel: every different user@host of the list that can be recorded, and for which there
   * is room, gets exactly one point for the current day, and nothing else changes anywhere.
   */
  lemma ChannelPoints(db: Db, name: CString, us: seq<UserHost>, chan: CString, k: Key, slot: nat)
    requires Sane(db) && slot < DAYSAMPLES && DifferentKeys(us)
    ensures var gets := Bounded(name, MAXCHANNELNAME) && chan == IrcFold(name) && slot == db.day
                        && Gets(OpsOf(db, chan), us, k);
            Counter(RunFrom(db, ChannelEvents(name, us)), chan, k, slot)
            == if gets then (Counter(db, chan, k, slot) + 1) % WRAP else Counter(db, chan, k, slot)
  {
    hide Gets, Counter, OpsOf, RunFrom, ChannelEvents, Registrations, Closed, Opened, IrcFold, ValidMap;
    ChannelRun(db, name, us);
    if Bounded(name, MAXCHANNELNAME) {
      OpenedPoints(db, name, us, chan, k, slot);
      OpenPoints(Step(db, SetWrite(Some(name))), us, chan, k, slot);
    } else {
      LongNamePoints(db, name, us, chan, k, slot);
    }
  }

  lemma ChannelRun(db: Db, name: CString, us: seq<UserHost>)
    requires Sane(db)
    ensures var d1 := Step(db, SetWrite(Some(name)));
            Sane(d1) && RunFrom(db, ChannelEvents(name, us)) == RunFrom(d1, Registrations(us))
  {
    var e := SetWrite(Some(name));
    StepSane(db, e);
    RunFromConcat(db, [e], Registrations(us));
    FirstStep(db, e);
    hide Sane, Step, RunFrom;
  }

  lemma LongNamePoints(db: Db, name: CString, us: seq<UserHost>, chan: CString, k: Key, slot: nat)
    requires Sane(db) && slot < DAYSAMPLES && !Bounded(name, MAXCHANNELNAME)
    ensures var d1 := Step(db, SetWrite(Some(name)));
            Sane(d1) && Counter(RunFrom(d1, Registrations(us)), chan, k, slot) == Counter(db, chan, k, slot)
  {
    ClosedSane(db);
    RegistrationsIdle(Closed(db), us);
    CounterClosed(db, chan, k, slot);
    hide Counter, RunFrom, Closed;
  }

  lemma FirstStep(db: Db, e: Event)
    requires Sane(db)
    ensures RunFrom(db, [e]) == Step(db, e)
  {
    assert [e][..0] == [];
    assert RunFrom(db, []) == db;
    hide Step;
  }

  lemma OpenPoints(db: Db, us: seq<UserHost>, chan: CString, k: Key, slot: nat)
    requires Sane(db) && db.write.Some? && slot < DAYSAMPLES && DifferentKeys(us)
    ensures var gets := db.write == Some(chan) && slot == db.day && Gets(Written(db).ops, us, k);
            Counter(RunFrom(db, Registrations(us)), chan, k, slot)
            == if gets then (Counter(db, chan, k, slot) + 1) % WRAP else Counter(db, chan, k, slot)
  {
    WrittenFits(db);
    RegisteredCounter(db, us, chan, k, slot);
    CounterBut(db, db, db.write.value, chan, k, slot);
    RegisterAllPoints(Written(db).ops, us, db.day, k, slot);
    hide *;
  }

  lemma RegisteredCounter(db: Db, us: seq<UserHost>, chan: CString, k: Key, slot: nat)
    requires Sane(db) && db.write.Some? && slot < DAYSAMPLES
    ensures WellFormed(Written(db).ops) && db.day < DAYSAMPLES
    ensures Counter(RunFrom(db, Registrations(us)), chan, k, slot) ==
            if chan == db.write.value then CounterOps(RegisterAll(Written(db).ops, us, db.day), k, slot)
            else Counter(db, chan, k, slot)
  {
    WrittenFits(db);
    RegistrationsRun(db, us);
    CounterBut(RunFrom(db, Registrations(us)), db, db.write.value, chan, k, slot);
    hide *;
  }

  lemma WrittenFits(db: Db)
    requires Sane(db) && db.write.Some?
    ensures WellFormed(Written(db).ops) && |Written(db).ops| <= MAXOPCOUNT && db.day < DAYSAMPLES
  {
    assert ValidChan(Written(db));
  }

  lemma CounterBut(a: Db, b: Db, id: CString, chan: CString, k: Key, slot: nat)
    requires Sane(a) && Sane(b) && SameBut(a, b, id) && slot < DAYSAMPLES && id in a.chans
    ensures WellFormed(a.chans[id].ops)
    ensures Counter(a, chan, k, slot) == if chan == id then CounterOps(a.chans[id].ops, k, slot) else Counter(b, chan, k, slot)
  {
    assert ValidChan(a.chans[id]);
    hide CounterOps, WellFormed;
  }
}
