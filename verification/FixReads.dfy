/** Fix attempts in the runs of the database: which channels they serve well. */
module FixReads {
  import opened CStrings
  import opened OpRecords
  import opened Channels
  import opened DbModel
  import opened FixSelection

  /** In every run, on every channel that is not open, one attempt ops exactly the best clients. */
  lemma ClosedChannelsServeBest(stamp: nat, es: seq<Event>, chan: CString)
    requires chan in Run(stamp, es).chans && Run(stamp, es).write != Some(chan)
    ensures AlwaysBest(Run(stamp, es).chans[chan].ops)
  {
    var db := Run(stamp, es);
    RunInOrder(stamp, es);
    assert ValidChan(db.chans[chan]) && Descending(db.chans[chan].ops);
    hide Run, Sane;
    BestMeansInOrder(db.chans[chan].ops);
  }

  /** In every run, on any channel, open or not: exactly if its records happen to be in order. */
  lemma ServesBestExactly(stamp: nat, es: seq<Event>, chan: CString)
    requires chan in Run(stamp, es).chans
    ensures AlwaysBest(Run(stamp, es).chans[chan].ops) <==> Descending(Run(stamp, es).chans[chan].ops)
  {
    assert ValidChan(Run(stamp, es).chans[chan]);
    hide Run, Sane;
    BestMeansInOrder(Run(stamp, es).chans[chan].ops);
  }

  /** Two user@hosts gathered from a channel, and the second one alone when it is opened again. */
  ghost function Late(name: CString, a: Op, b: Op): seq<Event> {
    [SetWrite(Some(name)), Event.RegisterOp(a.user, a.host), Event.RegisterOp(b.user, b.host),
     SetWrite(Some(name)), Event.RegisterOp(b.user, b.host)]
  }

  /** A record with n points, all of today. */
  function Fresh(o: Op, d: nat, n: nat): Op
    requires d < DAYSAMPLES
  {
    Op(o.user, o.host, Zeros()[d := n])
  }

  lemma FreshScore(o: Op, d: nat, n: nat)
    requires d < DAYSAMPLES
    ensures Score(Fresh(o, d, n)) == n && OpKey(Fresh(o, d, n)) == OpKey(o)
  {
    SumZero(Zeros());
    SumUpdate(Zeros(), d, n);
  }

  ghost predicate Suitable(name: CString, a: Op, b: Op) {
    && Bounded(name, MAXCHANNELNAME) && OpKey(a) != OpKey(b)
    && Bounded(a.user, USERLEN) && Bounded(a.host, HOSTLEN) && Bounded(b.user, USERLEN) && Bounded(b.host, HOSTLEN)
  }

  /** The database holds one channel, open, with these records. */
  ghost predicate OnlyOpen(db: Db, id: CString, ops: seq<Op>, d: nat) {
    db.write == Some(id) && db.day == d && id in db.chans && db.chans[id].ops == ops
  }

  lemma OpenedOnly(stamp: nat, name: CString)
    requires Bounded(name, MAXCHANNELNAME)
    ensures OnlyOpen(Run(stamp, [SetWrite(Some(name))]), IrcFold(name), [], stamp % DAYSAMPLES)
  {
    RunSnoc(stamp, [], SetWrite(Some(name)));
    assert [] + [SetWrite(Some(name))] == [SetWrite(Some(name))];
  }

  lemma RegisteredOnly(db: Db, id: CString, ops: seq<Op>, o: Op)
    requires Sane(db) && OnlyOpen(db, id, ops, db.day) && Bounded(o.user, USERLEN) && Bounded(o.host, HOSTLEN)
    ensures WellFormed(ops) && db.day < DAYSAMPLES
    ensures OnlyOpen(Step(db, Event.RegisterOp(o.user, o.host)), id, Registered(ops, o.user, o.host, db.day), db.day)
  {
    assert ValidChan(db.chans[id]);
    hide Registered, WellFormed;
  }

  lemma RegisterNew(s: seq<Op>, o: Op, d: nat)
    requires WellFormed(s) && d < DAYSAMPLES && |s| < MAXOPCOUNT && !HasKey(s, OpKey(o))
    ensures Registered(s, o.user, o.host, d) == s + [Fresh(o, d, 1)]
  {
  }

  lemma RegisterLast(s: seq<Op>, o: Op, d: nat)
    requires d < DAYSAMPLES && WellFormed(s + [Fresh(o, d, 1)])
    ensures Registered(s + [Fresh(o, d, 1)], o.user, o.host, d) == s + [Fresh(o, d, 2)]
  {
    var t := s + [Fresh(o, d, 1)];
    assert t[|s|] == Fresh(o, d, 1) && OpKey(t[|s|]) == OpKey(o);
    IndexUnique(t, |s|);
    assert Zeros()[d := 1][d := 2] == Zeros()[d := 2];
    assert t[|s| := Fresh(o, d, 2)] == s + [Fresh(o, d, 2)];
  }

  /** A new user@host registered at the end of a run. */
  lemma RunRegistersNew(stamp: nat, es: seq<Event>, id: CString, ops: seq<Op>, o: Op, d: nat)
    requires OnlyOpen(Run(stamp, es), id, ops, d) && Bounded(o.user, USERLEN) && Bounded(o.host, HOSTLEN)
    requires d < DAYSAMPLES && |ops| < MAXOPCOUNT && !HasKey(ops, OpKey(o))
    ensures OnlyOpen(Run(stamp, es + [Event.RegisterOp(o.user, o.host)]), id, ops + [Fresh(o, d, 1)], d)
  {
    RunSnoc(stamp, es, Event.RegisterOp(o.user, o.host));
    RegisteredOnly(Run(stamp, es), id, ops, o);
    RegisterNew(ops, o, d);
  }

  /** Opening the channel again closes it first, which changes nothing if its records are in order. */
  lemma RunReopens(stamp: nat, es: seq<Event>, name: CString, ops: seq<Op>, d: nat)
    requires OnlyOpen(Run(stamp, es), IrcFold(name), ops, d) && Bounded(name, MAXCHANNELNAME) && Descending(ops)
    ensures OnlyOpen(Run(stamp, es + [SetWrite(Some(name))]), IrcFold(name), ops, d)
  {
    RunSnoc(stamp, es, SetWrite(Some(name)));
    StableSortFixpoint(ops);
    StepOpens(Run(stamp, es), Some(name));
    hide StableSort, IrcFold, Descending, Run, Sane;
  }

  /** The user@host registered last, registered once more. */
  lemma RunRegistersAgain(stamp: nat, es: seq<Event>, id: CString, ops: seq<Op>, o: Op, d: nat)
    requires d < DAYSAMPLES && Bounded(o.user, USERLEN) && Bounded(o.host, HOSTLEN)
    requires OnlyOpen(Run(stamp, es), id, ops + [Fresh(o, d, 1)], d)
    ensures OnlyOpen(Run(stamp, es + [Event.RegisterOp(o.user, o.host)]), id, ops + [Fresh(o, d, 2)], d)
  {
    RunSnoc(stamp, es, Event.RegisterOp(o.user, o.host));
    RegisteredOnly(Run(stamp, es), id, ops + [Fresh(o, d, 1)], o);
    RegisterLast(ops, o, d);
  }

  lemma TwoFresh(a: Op, b: Op, d: nat)
    requires d < DAYSAMPLES && OpKey(a) != OpKey(b)
    ensures !HasKey([], OpKey(a)) && !HasKey([Fresh(a, d, 1)], OpKey(b))
    ensures Descending([Fresh(a, d, 1), Fresh(b, d, 1)])
  {
    FreshScore(a, d, 1);
    FreshScore(b, d, 1);
    hide Fresh;
  }

  lemma LateRun(stamp: nat, name: CString, a: Op, b: Op)
    requires Suitable(name, a, b)
    ensures var d := stamp % DAYSAMPLES;
            OnlyOpen(Run(stamp, Late(name, a, b)), IrcFold(name), [Fresh(a, d, 1), Fresh(b, d, 2)], d)
  {
    var d, id := stamp % DAYSAMPLES, IrcFold(name);
    var e0, ea, eb := SetWrite(Some(name)), Event.RegisterOp(a.user, a.host), Event.RegisterOp(b.user, b.host);
    hide Run, OnlyOpen, HasKey, Fresh, IrcFold, Descending;
    assert [e0] + [ea] + [eb] + [e0] + [eb] == Late(name, a, b);
    OpenedOnly(stamp, name);
    TwoFresh(a, b, d);
    var x, y, z := Fresh(a, d, 1), Fresh(b, d, 1), Fresh(b, d, 2);
    assert [] + [x] == [x] && [x] + [y] == [x, y] && [x] + [z] == [x, z];
    RunRegistersNew(stamp, [e0], id, [], a, d);
    RunRegistersNew(stamp, [e0] + [ea], id, [x], b, d);
    RunReopens(stamp, [e0] + [ea] + [eb], name, [x, y], d);
    RunRegistersAgain(stamp, [e0] + [ea] + [eb] + [e0], id, [x], b, d);
  }

  /** On the channel still open after that run a client that qualifies is passed over. */
  lemma OpenChannelMisses(stamp: nat, name: CString, a: Op, b: Op)
    requires Suitable(name, a, b)
    ensures var db := Run(stamp, Late(name, a, b));
            && IrcFold(name) in db.chans && db.write == Some(IrcFold(name))
            && var ops := db.chans[IrcFold(name)].ops;
               && !Descending(ops) && !AlwaysBest(ops)
               && Stored(ops, Holder(b)) == 2 && Selection(ops, [Holder(a), Holder(b)], 1, 2) == []
  {
    var d, db := stamp % DAYSAMPLES, Run(stamp, Late(name, a, b));
    LateRun(stamp, name, a, b);
    FreshScore(a, d, 1);
    FreshScore(b, d, 2);
    assert ValidChan(db.chans[IrcFold(name)]);
    var ops := db.chans[IrcFold(name)].ops;
    assert ops == [Fresh(a, d, 1), Fresh(b, d, 2)];
    assert Holder(ops[0]) == Holder(a) && Holder(ops[1]) == Holder(b);
    hide Run, Sane, Late;
    Hidden(ops, 0, 1);
    BestMeansInOrder(ops);
  }
}
