/** The score database as a map, its events, and what every run of them keeps. */
module DbModel {
  import opened CStrings
  import opened OpRecords
  import opened Notes
  import opened Channels
  import opened ChannelIndex

  const MAXCHANNELNAME := 51
  const USERLEN := 40
  const HOSTLEN := 63

  /** Channels by folded name, the channel open for writing, and the counter slot of the current day. */
  datatype Db = Db(chans: map<CString, Chan>, write: Option<CString>, day: nat)

  datatype Event =
    | SetWrite(name: Option<CString>)
    | RegisterOp(user: CString, host: CString)
    | AddNote(note: Note)
    | DelNote(number: int)
    | SetFlag(flag: nat)
    | UpdateDay(stamp: nat)

  /** DB_start followed by DB_set_day. */
  function Init(stamp: nat): Db {
    Db(map[], None, stamp % DAYSAMPLES)
  }

  ghost predicate Sane(db: Db) {
    && db.day < DAYSAMPLES
    && ValidMap(db.chans)
    && (forall k <- db.chans.Keys :: Id(db.chans[k]) == k)
    && (db.write.Some? ==> db.write.value in db.chans)
  }

  /** Every channel but the one open for writing is in scoring order. */
  ghost predicate InOrder(db: Db) {
    forall k <- db.chans.Keys :: db.write != Some(k) ==> Descending(db.chans[k].ops)
  }

  /** DB_write_end and closing of whatever is open. */
  ghost function Closed(db: Db): Db
    requires Sane(db)
  {
    if db.write.None? then db
    else db.(chans := db.chans[db.write.value := SortChan(db.chans[db.write.value])], write := None)
  }

  ghost function Opened(db: Db, name: CString): Db {
    var id := IrcFold(name);
    db.(chans := if id in db.chans then db.chans else db.chans[id := NewChan(name)], write := Some(id))
  }

  /** strboundscheck: the terminator comes before position max. */
  predicate Bounded(s: CString, max: nat) {
    |s| < max
  }

  ghost predicate Accepted(db: Db, user: CString, host: CString) {
    db.write.Some? && Bounded(user, USERLEN) && Bounded(host, HOSTLEN)
  }

  ghost function WithWrite(db: Db, c: Chan): Db
    requires db.write.Some?
  {
    db.(chans := db.chans[db.write.value := c])
  }

  ghost function Written(db: Db): Chan
    requires Sane(db) && db.write.Some?
  {
    db.chans[db.write.value]
  }

  ghost function Step(db: Db, e: Event): Db
    requires Sane(db)
  {
    match e
    case SetWrite(name) =>
      if name.Some? && Bounded(name.value, MAXCHANNELNAME) then Opened(Closed(db), name.value) else Closed(db)
    case RegisterOp(user, host) =>
      if Accepted(db, user, host) then WithWrite(db, RegisterChan(Written(db), user, host, db.day)) else db
    case AddNote(note) => if db.write.Some? then WithWrite(db, AddNoteChan(Written(db), note)) else db
    case DelNote(number) => if db.write.Some? then WithWrite(db, DelNoteChan(Written(db), number)) else db
    case SetFlag(flag) => if db.write.Some? then WithWrite(db, Written(db).(flag := flag)) else db
    case UpdateDay(stamp) => ClosedSane(db); Rolled(Closed(db), stamp % DAYSAMPLES)
  }

  ghost function Rolled(db: Db, d: nat): Db
    requires ValidMap(db.chans) && d < DAYSAMPLES
  {
    db.(chans := RolloverMap(db.chans, d), day := d)
  }

  lemma StepOpens(db: Db, name: Option<CString>)
    requires Sane(db)
    ensures Step(db, SetWrite(name)) ==
            if name.Some? && |name.value| < MAXCHANNELNAME then Opened(Closed(db), name.value) else Closed(db)
  {
    hide Opened, Closed;
  }

  lemma StepRolls(db: Db, stamp: nat)
    requires Sane(db)
    ensures ValidMap(Closed(db).chans) && Closed(db).write.None? && stamp % DAYSAMPLES < DAYSAMPLES
    ensures Step(db, UpdateDay(stamp)) == Db(RolloverMap(Closed(db).chans, stamp % DAYSAMPLES), None, stamp % DAYSAMPLES)
  {
    hide RolloverMap, Closed, ValidMap, Id;
    ClosedSane(db);
  }

  // ---------------------------------------------------------------- every step keeps the order

  lemma ClosedSane(db: Db)
    requires Sane(db)
    ensures Sane(Closed(db)) && Closed(db).write.None?
    ensures InOrder(db) ==> InOrder(Closed(db))
  {
    if db.write.Some? { SortChanValid(Written(db)); }
    hide SortChan, ValidChan, Descending, Id;
    assert db.write.Some? ==> Id(SortChan(Written(db))) == Id(Written(db)) by {
      if db.write.Some? { SortKeepsName(Written(db)); }
    }
  }

  lemma SortKeepsName(c: Chan)
    ensures Id(SortChan(c)) == Id(c)
  {
  }

  lemma OpenedSane(db: Db, name: CString)
    requires Sane(db) && db.write.None?
    ensures Sane(Opened(db, name))
    ensures InOrder(db) ==> InOrder(Opened(db, name))
  {
    NewChanValid(name);
    NewChanName(name);
    hide ValidChan, Descending, Id, NewChan;
  }

  lemma NewChanName(name: CString)
    ensures Id(NewChan(name)) == IrcFold(name) && Descending(NewChan(name).ops)
  {
  }

  lemma RolledSane(db: Db, d: nat)
    requires Sane(db) && db.write.None? && d < DAYSAMPLES
    ensures Sane(Rolled(db, d)) && InOrder(Rolled(db, d))
  {
    RollMapSane(db.chans, d);
    hide *;
    RolledParts(db, d);
  }

  lemma RolledParts(db: Db, d: nat)
    requires ValidMap(db.chans) && d < DAYSAMPLES && db.write.None?
    ensures Rolled(db, d) == Db(RolloverMap(db.chans, d), None, d)
    ensures (ValidMap(RolloverMap(db.chans, d))
             && forall k <- RolloverMap(db.chans, d).Keys ::
                  Id(RolloverMap(db.chans, d)[k]) == k && Descending(RolloverMap(db.chans, d)[k].ops))
            ==> Sane(Rolled(db, d)) && InOrder(Rolled(db, d))
  {
    hide RolloverMap, ValidMap, Id, Descending;
  }

  lemma RollMapSane(m: map<CString, Chan>, d: nat)
    requires ValidMap(m) && d < DAYSAMPLES
    requires forall k <- m.Keys :: Id(m[k]) == k
    ensures ValidMap(RolloverMap(m, d))
    ensures forall k <- RolloverMap(m, d).Keys ::
              Id(RolloverMap(m, d)[k]) == k && Descending(RolloverMap(m, d)[k].ops)
  {
    forall k <- RolloverMap(m, d).Keys
      ensures ValidChan(RolloverMap(m, d)[k])
      ensures Id(RolloverMap(m, d)[k]) == k && Descending(RolloverMap(m, d)[k].ops)
    {
      hide RollChan, ValidChan, Id, Keeps, Descending;
      RollChanValid(m[k], d);
      RollKeepsName(m[k], d);
    }
  }

  lemma WrittenSane(db: Db, c: Chan)
    requires Sane(db) && db.write.Some? && ValidChan(c) && c.name == Written(db).name
    ensures Sane(WithWrite(db, c)) && (InOrder(db) ==> InOrder(WithWrite(db, c)))
  {
    hide ValidChan, Descending;
  }

  lemma StepSane(db: Db, e: Event)
    requires Sane(db)
    ensures Sane(Step(db, e)) && (InOrder(db) ==> InOrder(Step(db, e)))
  {
    hide InOrder, RegisterChan, AddNoteChan, DelNoteChan, RolloverMap, ValidMap, Id;
    match e
    case SetWrite(name) =>
      ClosedSane(db);
      if name.Some? { OpenedSane(Closed(db), name.value); }
    case RegisterOp(user, host) =>
      if Accepted(db, user, host) { RegisteredSane(db, user, host); }
    case AddNote(note) =>
      if db.write.Some? { NotedSane(db, note); }
    case DelNote(number) =>
      if db.write.Some? { UnnotedSane(db, number); }
    case SetFlag(flag) =>
      if db.write.Some? { FlaggedSane(db, flag); }
    case UpdateDay(stamp) =>
      ClosedSane(db);
      RolledSane(Closed(db), stamp % DAYSAMPLES);
  }

  lemma RegisteredSane(db: Db, user: CString, host: CString)
    requires Sane(db) && db.write.Some?
    ensures ValidChan(Written(db)) && db.day < DAYSAMPLES
    ensures var r := WithWrite(db, RegisterChan(Written(db), user, host, db.day));
            Sane(r) && (InOrder(db) ==> InOrder(r))
  {
    assert ValidChan(Written(db));
    RegisterChanValid(Written(db), user, host, db.day);
    hide InOrder;
    WrittenSane(db, RegisterChan(Written(db), user, host, db.day));
  }

  lemma NotedSane(db: Db, note: Note)
    requires Sane(db) && db.write.Some?
    ensures var r := WithWrite(db, AddNoteChan(Written(db), note)); Sane(r) && (InOrder(db) ==> InOrder(r))
  {
    assert ValidChan(Written(db));
    hide InOrder;
    WrittenSane(db, AddNoteChan(Written(db), note));
  }

  lemma UnnotedSane(db: Db, number: int)
    requires Sane(db) && db.write.Some?
    ensures var r := WithWrite(db, DelNoteChan(Written(db), number)); Sane(r) && (InOrder(db) ==> InOrder(r))
  {
    assert ValidChan(Written(db));
    hide InOrder;
    WrittenSane(db, DelNoteChan(Written(db), number));
  }

  lemma FlaggedSane(db: Db, flag: nat)
    requires Sane(db) && db.write.Some?
    ensures var r := WithWrite(db, Written(db).(flag := flag)); Sane(r) && (InOrder(db) ==> InOrder(r))
  {
    assert ValidChan(Written(db));
    hide InOrder;
    WrittenSane(db, Written(db).(flag := flag));
  }

  ghost function Run(stamp: nat, es: seq<Event>): (db: Db)
    ensures Sane(db)
  {
    if es == [] then Init(stamp)
    else
      var db := Run(stamp, es[..|es| - 1]);
      StepSane(db, es[|es| - 1]);
      Step(db, es[|es| - 1])
  }

  lemma RunSnoc(stamp: nat, es: seq<Event>, e: Event)
    ensures Run(stamp, es + [e]) == Step(Run(stamp, es), e)
  {
    assert (es + [e])[..|es|] == es;
    hide Step;
  }

  /** In every reachable state all channels are in scoring order, except perhaps the open one. */
  lemma {:induction false} RunInOrder(stamp: nat, es: seq<Event>)
    ensures InOrder(Run(stamp, es))
  {
    if es != [] {
      RunInOrder(stamp, es[..|es| - 1]);
      StepSane(Run(stamp, es[..|es| - 1]), es[|es| - 1]);
    }
  }
}
