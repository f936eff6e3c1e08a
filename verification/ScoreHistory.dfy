/** The ring of fourteen counters refines a plain dated history of registrations, in every run of the database. */
module ScoreHistory {
  import opened CStrings
  import opened OpRecords
  import opened Notes
  import opened Channels
  import opened ChannelIndex
  import opened DbModel

  const WRAP := 0x1_0000

  /** What happened, dated: a registration that was recorded, or the rotation to a new day. */
  datatype Rec = Point(chan: CString, key: Key, on: nat) | Rotation(on: nat)

  /** What one event adds to the history. */
  ghost function Logged(db: Db, today: nat, e: Event): seq<Rec>
    requires Sane(db)
  {
    match e
    case RegisterOp(user, host) =>
      if Accepted(db, user, host) && Admits(Written(db).ops, KeyOf(user, host))
      then [Point(db.write.value, KeyOf(user, host), today)] else []
    case UpdateDay(stamp) => [Rotation(stamp)]
    case _ => []
  }

  ghost function Today(stamp: nat, es: seq<Event>): nat {
    if es == [] then stamp
    else match es[|es| - 1]
      case UpdateDay(s) => s
      case _ => Today(stamp, es[..|es| - 1])
  }

  ghost function Log(stamp: nat, es: seq<Event>): seq<Rec> {
    if es == [] then []
    else
      var p := es[..|es| - 1];
      Log(stamp, p) + Logged(Run(stamp, p), Today(stamp, p), es[|es| - 1])
  }

  /** Registrations of key on chan in slot since the last rotation onto that slot. */
  ghost function Live(log: seq<Rec>, chan: CString, key: Key, slot: nat): nat {
    if log == [] then 0
    else
      var r, p := log[|log| - 1], log[..|log| - 1];
      if r.on % DAYSAMPLES != slot then Live(p, chan, key, slot)
      else match r
        case Rotation(_) => 0
        case Point(c, k, _) => Live(p, chan, key, slot) + if c == chan && k == key then 1 else 0
  }

  // ---------------------------------------------------------------- one op list

  /** The counter an op list holds for key in slot; an unknown key counts nothing. */
  ghost function CounterOps(s: seq<Op>, k: Key, slot: nat): nat
    requires WellFormed(s) && slot < DAYSAMPLES
  {
    if HasKey(s, k) then s[IndexOf(s, k)].days[slot] else 0
  }

  lemma CounterOf(s: seq<Op>, o: Op, slot: nat)
    requires WellFormed(s) && slot < DAYSAMPLES && o in s
    ensures CounterOps(s, OpKey(o), slot) == o.days[slot]
  {
    var i :| 0 <= i < |s| && s[i] == o;
    IndexUnique(s, i);
  }

  lemma CounterSort(s: seq<Op>, k: Key, slot: nat)
    requires WellFormed(s) && slot < DAYSAMPLES
    ensures WellFormed(StableSort(s)) && CounterOps(StableSort(s), k, slot) == CounterOps(s, k, slot)
  {
    SortedWellFormed(s);
    hide WellFormed, StableSort, OpKey;
    var t := StableSort(s);
    if HasKey(s, k) {
      CounterOf(t, s[IndexOf(s, k)], slot);
    } else if HasKey(t, k) {
      CounterOf(s, t[IndexOf(t, k)], slot);
    }
  }

  lemma CounterRegistered(s: seq<Op>, user: CString, host: CString, d: nat, k: Key, slot: nat)
    requires WellFormed(s) && d < DAYSAMPLES && slot < DAYSAMPLES
    ensures WellFormed(Registered(s, user, host, d))
    ensures CounterOps(Registered(s, user, host, d), k, slot) ==
            if k == KeyOf(user, host) && slot == d && Admits(s, k)
            then (CounterOps(s, k, slot) + 1) % WRAP else CounterOps(s, k, slot)
  {
    RegisteredWellFormed(s, user, host, d);
    var r := Registered(s, user, host, d);
    var key := KeyOf(user, host);
    if HasKey(r, k) {
      var i := IndexOf(r, k);
      if i < |s| {
        assert OpKey(s[i]) == k;
        IndexUnique(s, i);
      }
    }
  }

  lemma CounterRolled(s: seq<Op>, d: nat, k: Key, slot: nat)
    requires WellFormed(s) && d < DAYSAMPLES && slot < DAYSAMPLES
    ensures WellFormed(RolledOps(s, d))
    ensures CounterOps(RolledOps(s, d), k, slot) == if slot == d then 0 else CounterOps(s, k, slot)
  {
    RolledWellFormed(s, d);
    ClearedWellFormed(s, d);
    CounterCleared(s, d, k, slot);
    hide RolledOps, Cleared, Score, OpKey;
    var t, c := RolledOps(s, d), Cleared(s, d);
    if HasKey(t, k) {
      CounterOf(t, t[IndexOf(t, k)], slot);
      CounterOf(c, t[IndexOf(t, k)], slot);
    } else if HasKey(c, k) {
      CounterUnscored(c, t, k, slot);
    }
  }

  lemma CounterCleared(s: seq<Op>, d: nat, k: Key, slot: nat)
    requires WellFormed(s) && d < DAYSAMPLES && slot < DAYSAMPLES
    ensures WellFormed(Cleared(s, d))
    ensures CounterOps(Cleared(s, d), k, slot) == if slot == d then 0 else CounterOps(s, k, slot)
  {
    ClearedWellFormed(s, d);
    var c := Cleared(s, d);
    assert |c| == |s| && forall i :: 0 <= i < |s| ==> OpKey(c[i]) == OpKey(s[i]);
    if HasKey(s, k) {
      var i := IndexOf(s, k);
      assert OpKey(c[i]) == k;
      hide OpKey;
      IndexUnique(c, i);
      IndexUnique(s, i);
    } else {
      assert !HasKey(c, k);
    }
  }

  /** A record that was dropped because it has no points counts nothing. */
  lemma CounterUnscored(c: seq<Op>, t: seq<Op>, k: Key, slot: nat)
    requires WellFormed(c) && slot < DAYSAMPLES && HasKey(c, k) && !HasKey(t, k)
    requires forall o :: o in t <==> o in c && Score(o) > 0
    ensures CounterOps(c, k, slot) == 0
  {
    var o := c[IndexOf(c, k)];
    SumZero(o.days);
    hide OpKey;
    assert o in c && OpKey(o) == k;
    assert o in t ==> HasKey(t, k);
  }

  // ---------------------------------------------------------------- one event

  /** The counter the database holds; an absent channel counts nothing. */
  ghost function Counter(db: Db, chan: CString, k: Key, slot: nat): nat
    requires Sane(db) && slot < DAYSAMPLES
  {
    if chan in db.chans then CounterOps(db.chans[chan].ops, k, slot) else 0
  }

  lemma CounterClosed(db: Db, chan: CString, k: Key, slot: nat)
    requires Sane(db) && slot < DAYSAMPLES
    ensures Sane(Closed(db)) && Counter(Closed(db), chan, k, slot) == Counter(db, chan, k, slot)
  {
    ClosedSane(db);
    if db.write.Some? {
      CounterSort(Written(db).ops, k, slot);
    }
    hide WellFormed, StableSort, CounterOps;
  }

  lemma CounterOpened(db: Db, name: CString, chan: CString, k: Key, slot: nat)
    requires Sane(db) && db.write.None? && slot < DAYSAMPLES
    ensures Sane(Opened(db, name)) && Counter(Opened(db, name), chan, k, slot) == Counter(db, chan, k, slot)
  {
    OpenedSane(db, name);
  }

  lemma CounterWritten(db: Db, c: Chan, chan: CString, k: Key, slot: nat)
    requires Sane(db) && db.write.Some? && slot < DAYSAMPLES && ValidChan(c) && c.name == Written(db).name
    ensures Sane(WithWrite(db, c))
    ensures Counter(WithWrite(db, c), chan, k, slot) ==
            if db.write == Some(chan) then CounterOps(c.ops, k, slot) else Counter(db, chan, k, slot)
  {
    WrittenSane(db, c);
    hide CounterOps;
  }

  lemma CounterRolledMap(db: Db, d: nat, chan: CString, k: Key, slot: nat)
    requires Sane(db) && db.write.None? && d < DAYSAMPLES && slot < DAYSAMPLES
    ensures Sane(Rolled(db, d))
    ensures Counter(Rolled(db, d), chan, k, slot) == if slot == d then 0 else Counter(db, chan, k, slot)
  {
    RolledSane(db, d);
    if chan in db.chans {
      var c := db.chans[chan];
      assert ValidChan(c);
      CounterRolled(c.ops, d, k, slot);
      hide WellFormed, CounterOps, RolledOps, Keeps;
      assert RollChan(c, d).ops == RolledOps(c.ops, d);
      if chan !in Rolled(db, d).chans {
        NothingLeft(c, d, k, slot);
      }
    }
  }

  /** A channel that is dropped had no counters left. */
  lemma NothingLeft(c: Chan, d: nat, k: Key, slot: nat)
    requires ValidChan(c) && d < DAYSAMPLES && slot < DAYSAMPLES && !Keeps(RollChan(c, d))
    ensures WellFormed(RolledOps(c.ops, d)) && CounterOps(RolledOps(c.ops, d), k, slot) == 0
  {
    RolledWellFormed(c.ops, d);
    assert RolledOps(c.ops, d) == [];
  }

  /** A counter of n, after what one event logged. */
  ghost function After(l: seq<Rec>, n: nat, chan: CString, k: Key, slot: nat): nat {
    if l == [] || l[0].on % DAYSAMPLES != slot then n
    else match l[0]
      case Rotation(_) => 0
      case Point(c, q, _) => if c == chan && q == k then (n + 1) % WRAP else n
  }

  lemma RegisterCounts(db: Db, today: nat, user: CString, host: CString, chan: CString, k: Key, slot: nat)
    requires Sane(db) && slot < DAYSAMPLES && db.day == today % DAYSAMPLES && Accepted(db, user, host)
    ensures var e := Event.RegisterOp(user, host);
            Sane(Step(db, e))
            && Counter(Step(db, e), chan, k, slot)
               == After(Logged(db, today, e), Counter(db, chan, k, slot), chan, k, slot)
  {
    var c := Written(db);
    RegisterChanValid(c, user, host, db.day);
    CounterWritten(db, RegisterChan(c, user, host, db.day), chan, k, slot);
    CounterRegistered(c.ops, user, host, db.day, k, slot);
    hide WellFormed, CounterOps, Registered, KeyOf, Admits;
  }

  lemma PlainCounts(db: Db, c: Chan, chan: CString, k: Key, slot: nat)
    requires Sane(db) && db.write.Some? && slot < DAYSAMPLES && ValidChan(c)
    requires c.name == Written(db).name && c.ops == Written(db).ops
    ensures Sane(WithWrite(db, c)) && Counter(WithWrite(db, c), chan, k, slot) == Counter(db, chan, k, slot)
  {
    CounterWritten(db, c, chan, k, slot);
  }

  lemma NotedCounts(db: Db, note: Note, chan: CString, k: Key, slot: nat)
    requires Sane(db) && db.write.Some? && slot < DAYSAMPLES
    ensures var r := WithWrite(db, AddNoteChan(Written(db), note));
            Sane(r) && Counter(r, chan, k, slot) == Counter(db, chan, k, slot)
  {
    assert ValidChan(Written(db));
    hide Counter;
    PlainCounts(db, AddNoteChan(Written(db), note), chan, k, slot);
  }

  lemma FlaggedCounts(db: Db, flag: nat, chan: CString, k: Key, slot: nat)
    requires Sane(db) && db.write.Some? && slot < DAYSAMPLES
    ensures var r := WithWrite(db, Written(db).(flag := flag));
            Sane(r) && Counter(r, chan, k, slot) == Counter(db, chan, k, slot)
  {
    assert ValidChan(Written(db));
    hide Counter;
    PlainCounts(db, Written(db).(flag := flag), chan, k, slot);
  }

  lemma UnnotedCounts(db: Db, number: int, chan: CString, k: Key, slot: nat)
    requires Sane(db) && db.write.Some? && slot < DAYSAMPLES
    ensures var r := WithWrite(db, DelNoteChan(Written(db), number));
            Sane(r) && Counter(r, chan, k, slot) == Counter(db, chan, k, slot)
  {
    assert ValidChan(Written(db));
    hide Counter;
    PlainCounts(db, DelNoteChan(Written(db), number), chan, k, slot);
  }

  /** One event moves the counter and the history alike. */
  lemma StepCounts(db: Db, today: nat, e: Event, chan: CString, k: Key, slot: nat)
    requires Sane(db) && slot < DAYSAMPLES && db.day == today % DAYSAMPLES
    ensures Sane(Step(db, e))
    ensures Counter(Step(db, e), chan, k, slot) ==
            After(Logged(db, today, e), Counter(db, chan, k, slot), chan, k, slot)
  {
    hide Counter, RegisterChan, AddNoteChan, DelNoteChan, Admits, Closed, Opened, Rolled, ValidMap, Id, KeyOf;
    match e
    case SetWrite(name) =>
      ClosedSane(db);
      CounterClosed(db, chan, k, slot);
      StepOpens(db, name);
      if name.Some? { CounterOpened(Closed(db), name.value, chan, k, slot); }
    case RegisterOp(user, host) =>
      if Accepted(db, user, host) { RegisterCounts(db, today, user, host, chan, k, slot); }
    case AddNote(note) =>
      if db.write.Some? { NotedCounts(db, note, chan, k, slot); }
    case DelNote(number) =>
      if db.write.Some? { UnnotedCounts(db, number, chan, k, slot); }
    case SetFlag(flag) =>
      if db.write.Some? { FlaggedCounts(db, flag, chan, k, slot); }
    case UpdateDay(stamp) =>
      ClosedSane(db);
      CounterClosed(db, chan, k, slot);
      CounterRolledMap(Closed(db), stamp % DAYSAMPLES, chan, k, slot);
  }

  // ---------------------------------------------------------------- every run

  lemma LiveStep(log: seq<Rec>, l: seq<Rec>, chan: CString, k: Key, slot: nat)
    requires |l| <= 1
    ensures Live(log + l, chan, k, slot) % WRAP == After(l, Live(log, chan, k, slot) % WRAP, chan, k, slot)
  {
    if l == [] {
      assert log + l == log;
    } else {
      var n := Live(log, chan, k, slot);
      LiveSnoc(log, l[0], chan, k, slot);
      assert log + l == log + [l[0]];
      WrapNext(n);
      hide Live;
    }
  }

  lemma LiveSnoc(log: seq<Rec>, r: Rec, chan: CString, k: Key, slot: nat)
    ensures Live(log + [r], chan, k, slot) ==
            if r.on % DAYSAMPLES != slot then Live(log, chan, k, slot)
            else if r.Rotation? then 0
            else Live(log, chan, k, slot) + if r.chan == chan && r.key == k then 1 else 0
  {
    assert (log + [r])[..|log|] == log && (log + [r])[|log|] == r;
  }

  lemma WrapNext(n: nat)
    ensures (n + 1) % WRAP == (n % WRAP + 1) % WRAP
  {
  }

  /** In every run, each counter is the number of registrations logged for it since its slot was last rotated. */
  lemma {:induction false} RingCounts(stamp: nat, es: seq<Event>, chan: CString, k: Key, slot: nat)
    requires slot < DAYSAMPLES
    ensures Run(stamp, es).day == Today(stamp, es) % DAYSAMPLES
    ensures Counter(Run(stamp, es), chan, k, slot) == Live(Log(stamp, es), chan, k, slot) % WRAP
  {
    if es != [] {
      var p, e := es[..|es| - 1], es[|es| - 1];
      RingCounts(stamp, p, chan, k, slot);
      StepDay(Run(stamp, p), e);
      StepCounts(Run(stamp, p), Today(stamp, p), e, chan, k, slot);
      hide Counter, Live, Step;
      LiveStep(Log(stamp, p), Logged(Run(stamp, p), Today(stamp, p), e), chan, k, slot);
    }
  }

  lemma StepDay(db: Db, e: Event)
    requires Sane(db)
    ensures Step(db, e).day == if e.UpdateDay? then e.stamp % DAYSAMPLES else db.day
  {
  }

  // ---------------------------------------------------------------- runs that rotate every day

  /** Every rotation goes to the day after the last one. */
  ghost predicate Daily(stamp: nat, es: seq<Event>) {
    es != [] ==>
      var p, e := es[..|es| - 1], es[|es| - 1];
      Daily(stamp, p) && (e.UpdateDay? ==> e.stamp == Today(stamp, p) + 1)
  }

  /** Entries are dated in order, one rotation per day. */
  ghost predicate Dated(log: seq<Rec>, today: nat) {
    log != [] ==>
      var p, r := log[..|log| - 1], log[|log| - 1];
      r.on == today && if r.Point? then Dated(p, today) else today > 0 && Dated(p, today - 1)
  }

  lemma {:induction false} DailyDated(stamp: nat, es: seq<Event>)
    requires Daily(stamp, es)
    ensures Dated(Log(stamp, es), Today(stamp, es))
  {
    if es != [] {
      var p, e := es[..|es| - 1], es[|es| - 1];
      DailyDated(stamp, p);
      var l := Logged(Run(stamp, p), Today(stamp, p), e);
      if l == [] {
        assert Log(stamp, p) + l == Log(stamp, p);
      } else {
        assert (Log(stamp, p) + l)[..|Log(stamp, p)|] == Log(stamp, p);
      }
    }
  }

  /** Registrations of key on chan from day lo on. */
  ghost function Window(log: seq<Rec>, chan: CString, key: Key, lo: int): nat {
    if log == [] then 0
    else
      var r := log[|log| - 1];
      Window(log[..|log| - 1], chan, key, lo)
      + if r.Point? && r.chan == chan && r.key == key && r.on >= lo then 1 else 0
  }

  /** Those of them that fall in one slot. */
  ghost function InSlot(log: seq<Rec>, chan: CString, key: Key, lo: int, slot: nat): nat {
    if log == [] then 0
    else
      var r := log[|log| - 1];
      InSlot(log[..|log| - 1], chan, key, lo, slot)
      + if r.Point? && r.chan == chan && r.key == key && r.on >= lo && r.on % DAYSAMPLES == slot then 1 else 0
  }

  /** Registrations of key on chan on one day. */
  ghost function OnDay(log: seq<Rec>, chan: CString, key: Key, on: int): nat {
    if log == [] then 0
    else
      var r := log[|log| - 1];
      OnDay(log[..|log| - 1], chan, key, on) + if r.Point? && r.chan == chan && r.key == key && r.on == on then 1 else 0
  }

  /** The one day of the last fourteen that falls in slot. */
  function DayOf(today: nat, slot: nat): int {
    today - (today - slot) % DAYSAMPLES
  }

  lemma DayOfUnique(today: nat, slot: nat, on: int)
    requires slot < DAYSAMPLES && on <= today
    ensures on >= today - 13 && on % DAYSAMPLES == slot <==> on == DayOf(today, slot)
  {
    var back := (today - slot) % DAYSAMPLES;
    assert (today - back) % DAYSAMPLES == slot;
  }

  lemma {:induction false} SlotIsDay(log: seq<Rec>, today: nat, bound: nat, chan: CString, key: Key, slot: nat)
    requires Dated(log, bound) && bound <= today && slot < DAYSAMPLES
    ensures InSlot(log, chan, key, today - 13, slot) == OnDay(log, chan, key, DayOf(today, slot))
  {
    if log != [] {
      var p, r := log[..|log| - 1], log[|log| - 1];
      DayOfUnique(today, slot, r.on);
      SlotIsDay(p, today, if r.Point? then bound else bound - 1, chan, key, slot);
    }
  }

  /** With daily rotations, what a slot counts is what happened on its one recent day. */
  lemma {:induction false} LiveIsRecent(log: seq<Rec>, today: nat, chan: CString, key: Key, slot: nat)
    requires Dated(log, today) && slot < DAYSAMPLES
    ensures Live(log, chan, key, slot) == InSlot(log, chan, key, today - 13, slot)
  {
    if log != [] {
      var p, r := log[..|log| - 1], log[|log| - 1];
      if r.Point? {
        LiveIsRecent(p, today, chan, key, slot);
      } else {
        LiveIsRecent(p, today - 1, chan, key, slot);
        SlotIsDay(p, today, today - 1, chan, key, slot);
        SlotIsDay(p, today - 1, today - 1, chan, key, slot);
        SlotMoves(today, slot);
        if slot == today % DAYSAMPLES { NotYet(p, today - 1, today, chan, key); }
      }
    }
  }

  lemma SlotMoves(today: nat, slot: nat)
    requires today > 0 && slot < DAYSAMPLES
    ensures slot == today % DAYSAMPLES ==> DayOf(today, slot) == today
    ensures slot != today % DAYSAMPLES ==> DayOf(today, slot) == DayOf(today - 1, slot)
  {
    var a, b := (today - slot) % DAYSAMPLES, (today - 1 - slot) % DAYSAMPLES;
    assert a == if b + 1 == DAYSAMPLES then 0 else b + 1;
  }

  lemma {:induction false} NotYet(log: seq<Rec>, bound: nat, on: nat, chan: CString, key: Key)
    requires Dated(log, bound) && bound < on
    ensures OnDay(log, chan, key, on) == 0
  {
    if log != [] {
      NotYet(log[..|log| - 1], if log[|log| - 1].Point? then bound else bound - 1, on, chan, key);
    }
  }

  // ---------------------------------------------------------------- runs that skip days

  /**
   * Rotating to any later day, skipping days or not, leaves a counter right exactly when its slot is the one
   * cleared, or its day is still among the last fourteen, or nothing was registered on that day.
   */
  lemma RotationExact(log: seq<Rec>, today: nat, next: nat, chan: CString, key: Key, slot: nat)
    requires Dated(log, today) && today < next && slot < DAYSAMPLES
    ensures var after := log + [Rotation(next)];
            Live(after, chan, key, slot) == InSlot(after, chan, key, next - 13, slot)
            <==> (slot == next % DAYSAMPLES || DayOf(today, slot) >= next - 13
                  || OnDay(log, chan, key, DayOf(today, slot)) == 0)
  {
    var after := log + [Rotation(next)];
    assert after[..|log|] == log;
    LiveIsRecent(log, today, chan, key, slot);
    SlotIsDay(log, today, today, chan, key, slot);
    SlotIsDay(log, next, today, chan, key, slot);
    DayAfterJump(today, next, slot);
    if DayOf(next, slot) > today { NotYet(log, today, DayOf(next, slot), chan, key); }
    hide Dated, DayOf, OnDay;
  }

  /** A slot's recent day, before and after the jump, is the same, or the old one has left the window. */
  lemma DayAfterJump(today: nat, next: nat, slot: nat)
    requires today < next && slot < DAYSAMPLES
    ensures slot == next % DAYSAMPLES ==> DayOf(next, slot) == next
    ensures if DayOf(today, slot) >= next - 13 then DayOf(next, slot) == DayOf(today, slot) else DayOf(next, slot) > today
  {
    DayOfUnique(today, slot, DayOf(today, slot));
    DayOfUnique(next, slot, DayOf(next, slot));
    DayOfUnique(next, slot, DayOf(today, slot));
    DayOfUnique(next, slot, next);
    if DayOf(next, slot) <= today { DayOfUnique(today, slot, DayOf(next, slot)); }
  }
}
