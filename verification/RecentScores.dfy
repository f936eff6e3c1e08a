/** How far a score is from the number of registrations of the last fourteen days, and when the two agree. */
module RecentScores {
  import opened CStrings
  import opened OpRecords
  import opened DbModel
  import opened ScoreHistory

  // ---------------------------------------------------------------- sums over the slots

  /** Adds up f over the first n slots. */
  ghost function SumSlots(f: nat -> nat, n: nat): nat {
    if n == 0 then 0 else SumSlots(f, n - 1) + f(n - 1)
  }

  lemma {:induction false} SumSlotsEqual(f: nat -> nat, g: nat -> nat, n: nat)
    requires forall i: nat :: i < n ==> f(i) == g(i)
    ensures SumSlots(f, n) == SumSlots(g, n)
  {
    if n > 0 { SumSlotsEqual(f, g, n - 1); }
  }

  lemma {:induction false} SumSlotsPlus(f: nat -> nat, g: nat -> nat, at: nat, n: nat)
    requires forall i: nat :: i < n ==> g(i) == f(i) + if i == at then 1 else 0
    ensures SumSlots(g, n) == SumSlots(f, n) + if at < n then 1 else 0
  {
    if n > 0 { SumSlotsPlus(f, g, at, n - 1); }
  }

  lemma {:induction false} SumDays(days: seq<nat>, f: nat -> nat)
    requires forall i: nat :: i < |days| ==> f(i) == days[i]
    ensures SumSlots(f, |days|) == Sum(days)
  {
    if days != [] {
      var p := days[..|days| - 1];
      assert forall i: nat :: i < |p| ==> p[i] == days[i];
      SumDays(p, f);
    }
  }

  lemma {:induction false} WindowBySlot(log: seq<Rec>, chan: CString, key: Key, lo: int)
    ensures SumSlots((slot: nat) => InSlot(log, chan, key, lo, slot), DAYSAMPLES) == Window(log, chan, key, lo)
  {
    hide SumSlots;
    var g := (slot: nat) => InSlot(log, chan, key, lo, slot);
    if log == [] {
      SumSlotsEqual(g, _ => 0, DAYSAMPLES);
      AllZero(DAYSAMPLES);
    } else {
      var p, r := log[..|log| - 1], log[|log| - 1];
      var f := (slot: nat) => InSlot(p, chan, key, lo, slot);
      WindowBySlot(p, chan, key, lo);
      if r.Point? && r.chan == chan && r.key == key && r.on >= lo {
        SumSlotsPlus(f, g, r.on % DAYSAMPLES, DAYSAMPLES);
      } else {
        SumSlotsEqual(f, g, DAYSAMPLES);
      }
    }
  }

  lemma {:induction false} AllZero(n: nat)
    ensures SumSlots(_ => 0, n) == 0
  {
    if n > 0 { AllZero(n - 1); }
  }

  /** The score of key on chan; an evicted or unknown op scores nothing. */
  ghost function ScoreIn(db: Db, chan: CString, key: Key): nat
    requires Sane(db)
  {
    if chan in db.chans && HasKey(db.chans[chan].ops, key)
    then Score(db.chans[chan].ops[IndexOf(db.chans[chan].ops, key)]) else 0
  }

  lemma ScoreBySlot(db: Db, chan: CString, key: Key, f: nat -> nat)
    requires Sane(db)
    requires forall slot: nat :: slot < DAYSAMPLES ==> f(slot) == Counter(db, chan, key, slot)
    ensures SumSlots(f, DAYSAMPLES) == ScoreIn(db, chan, key)
  {
    if chan in db.chans && HasKey(db.chans[chan].ops, key) {
      var ops := db.chans[chan].ops;
      assert WellFormed(ops);
      var o := ops[IndexOf(ops, key)];
      SumDays(o.days, f);
    } else {
      SumSlotsEqual(f, _ => 0, DAYSAMPLES);
      AllZero(DAYSAMPLES);
    }
  }

  lemma {:induction false} SumSlotsZero(f: nat -> nat, n: nat)
    ensures SumSlots(f, n) == 0 <==> forall i: nat :: i < n ==> f(i) == 0
  {
    if n > 0 { SumSlotsZero(f, n - 1); }
  }

  lemma {:induction false} SumSlotsBalance(f: nat -> nat, w: nat -> nat, g: nat -> nat, a: nat -> nat, n: nat)
    requires forall i: nat :: i < n ==> f(i) + WRAP * w(i) == g(i) + a(i)
    ensures SumSlots(f, n) + WRAP * SumSlots(w, n) == SumSlots(g, n) + SumSlots(a, n)
  {
    if n > 0 { SumSlotsBalance(f, w, g, a, n - 1); }
  }

  /** A count as a 16-bit counter shows it. */
  function Wrapped(n: nat): nat {
    n % WRAP
  }

  /** How often the counter has gone round by then. */
  function Rounds(n: nat): nat {
    n / WRAP
  }

  /** What the slots count together. */
  ghost function Total(log: seq<Rec>, chan: CString, key: Key): nat {
    SumSlots((slot: nat) => Wrapped(Live(log, chan, key, slot)), DAYSAMPLES)
  }

  /** In every run a score is the sum of what the slots count. */
  lemma ScoreIsLive(stamp: nat, es: seq<Event>, chan: CString, key: Key)
    ensures ScoreIn(Run(stamp, es), chan, key) == Total(Log(stamp, es), chan, key)
  {
    var db, log := Run(stamp, es), Log(stamp, es);
    var f := (slot: nat) => Wrapped(Live(log, chan, key, slot));
    assert Total(log, chan, key) == SumSlots(f, DAYSAMPLES);
    hide *;
    forall slot: nat | slot < DAYSAMPLES ensures f(slot) == Counter(db, chan, key, slot) {
      CounterIsLive(stamp, es, chan, key, slot);
    }
    ScoreBySlot(db, chan, key, f);
  }

  lemma CounterIsLive(stamp: nat, es: seq<Event>, chan: CString, key: Key, slot: nat)
    requires slot < DAYSAMPLES
    ensures Counter(Run(stamp, es), chan, key, slot) == Wrapped(Live(Log(stamp, es), chan, key, slot))
  {
    hide Counter, Run, Log, Live;
    RingCounts(stamp, es, chan, key, slot);
  }

  // ---------------------------------------------------------------- runs that go forward

  /** Every rotation goes to a later day. */
  ghost predicate Forward(stamp: nat, es: seq<Event>) {
    es != [] ==>
      var p, e := es[..|es| - 1], es[|es| - 1];
      Forward(stamp, p) && (e.UpdateDay? ==> Today(stamp, p) < e.stamp)
  }

  /** Entries are dated in order up to a day, rotations later than all before them. */
  ghost predicate Ordered(log: seq<Rec>, today: int) {
    log != [] ==>
      var p, r := log[..|log| - 1], log[|log| - 1];
      r.on <= today && Ordered(p, if r.Point? then r.on else r.on - 1)
  }

  lemma OrderedMore(log: seq<Rec>, today: nat, l: seq<Rec>, next: nat)
    requires Ordered(log, today) && |l| <= 1 && today <= next
    requires l != [] ==> l[0].on == next && (l[0].Point? || today < next)
    ensures Ordered(log + l, next)
  {
    if l == [] {
      assert log + l == log;
    } else {
      assert (log + l)[..|log|] == log;
    }
  }

  lemma {:induction false} ForwardOrdered(stamp: nat, es: seq<Event>)
    requires Forward(stamp, es)
    ensures Ordered(Log(stamp, es), Today(stamp, es))
  {
    hide Run, Accepted, Admits, KeyOf;
    if es != [] {
      var p, e := es[..|es| - 1], es[|es| - 1];
      ForwardOrdered(stamp, p);
      OrderedMore(Log(stamp, p), Today(stamp, p), Logged(Run(stamp, p), Today(stamp, p), e), Today(stamp, es));
    }
  }

  lemma {:induction false} DailyForward(stamp: nat, es: seq<Event>)
    requires Daily(stamp, es)
    ensures Forward(stamp, es)
  {
    if es != [] { DailyForward(stamp, es[..|es| - 1]); }
  }

  /** What a slot still counts, since its last rotation, from before day lo. */
  ghost function Aged(log: seq<Rec>, chan: CString, key: Key, lo: int, slot: nat): nat {
    if log == [] then 0
    else
      var r, p := log[|log| - 1], log[..|log| - 1];
      if r.on % DAYSAMPLES != slot then Aged(p, chan, key, lo, slot)
      else match r
        case Rotation(_) => 0
        case Point(c, k, on) => Aged(p, chan, key, lo, slot) + if c == chan && k == key && on < lo then 1 else 0
  }

  /** Nothing that a rotation wipes out is recent. */
  lemma {:induction false} WipedIsOld(log: seq<Rec>, bound: int, on: nat, chan: CString, key: Key, lo: int)
    requires Ordered(log, bound) && bound < on <= lo + 13
    ensures InSlot(log, chan, key, lo, on % DAYSAMPLES) == 0
  {
    if log != [] {
      var p, r := log[..|log| - 1], log[|log| - 1];
      WipedIsOld(p, if r.Point? then r.on else r.on - 1, on, chan, key, lo);
    }
  }

  /** A slot counts the recent registrations of its day and those it was never rotated out of. */
  lemma {:induction false} LiveSplits(log: seq<Rec>, bound: int, chan: CString, key: Key, lo: int, slot: nat)
    requires Ordered(log, bound) && bound <= lo + 13
    ensures Live(log, chan, key, slot) == InSlot(log, chan, key, lo, slot) + Aged(log, chan, key, lo, slot)
  {
    if log != [] {
      var p, r := log[..|log| - 1], log[|log| - 1];
      LiveSplits(p, if r.Point? then r.on else r.on - 1, chan, key, lo, slot);
      if r.Rotation? { WipedIsOld(p, r.on - 1, r.on, chan, key, lo); }
    }
  }

  // ---------------------------------------------------------------- the balance

  /** How often the counters of the key have gone round. */
  ghost function Wraps(log: seq<Rec>, chan: CString, key: Key): nat {
    SumSlots((slot: nat) => Rounds(Live(log, chan, key, slot)), DAYSAMPLES)
  }

  /** What all slots still count from before day lo. */
  ghost function AgedTotal(log: seq<Rec>, chan: CString, key: Key, lo: int): nat {
    SumSlots((slot: nat) => Aged(log, chan, key, lo, slot), DAYSAMPLES)
  }

  lemma SlotBalance(log: seq<Rec>, chan: CString, key: Key, lo: int, slot: nat)
    requires Ordered(log, lo + 13)
    ensures Wrapped(Live(log, chan, key, slot)) + WRAP * Rounds(Live(log, chan, key, slot))
            == InSlot(log, chan, key, lo, slot) + Aged(log, chan, key, lo, slot)
  {
    LiveSplits(log, lo + 13, chan, key, lo, slot);
    hide Live, InSlot, Aged, Ordered;
  }

  lemma TotalBalance(log: seq<Rec>, chan: CString, key: Key, lo: int)
    requires Ordered(log, lo + 13)
    ensures Total(log, chan, key) + WRAP * Wraps(log, chan, key)
            == Window(log, chan, key, lo) + AgedTotal(log, chan, key, lo)
  {
    hide Live, InSlot, Aged, Ordered, Window, SumSlots, Wrapped;
    var f, w := (slot: nat) => Wrapped(Live(log, chan, key, slot)), (slot: nat) => Rounds(Live(log, chan, key, slot));
    var g, a := (slot: nat) => InSlot(log, chan, key, lo, slot), (slot: nat) => Aged(log, chan, key, lo, slot);
    forall slot: nat | slot < DAYSAMPLES ensures f(slot) + WRAP * w(slot) == g(slot) + a(slot) {
      SlotBalance(log, chan, key, lo, slot);
    }
    SumSlotsBalance(f, w, g, a, DAYSAMPLES);
    WindowBySlot(log, chan, key, lo);
  }

  /**
   * In every run whose rotations go forward, through registrations, evictions, channel removal and re-creation:
   * a score exceeds the number of registrations of the last fourteen days by what the slots still count from
   * before, less 65536 for each time a counter went round.
   */
  lemma ScoreBalance(stamp: nat, es: seq<Event>, chan: CString, key: Key)
    requires Forward(stamp, es)
    ensures var log, lo: int := Log(stamp, es), Today(stamp, es) - 13;
            ScoreIn(Run(stamp, es), chan, key) + WRAP * Wraps(log, chan, key)
            == Window(log, chan, key, lo) + AgedTotal(log, chan, key, lo)
  {
    hide *;
    ForwardOrdered(stamp, es);
    ScoreIsLive(stamp, es, chan, key);
    TotalBalance(Log(stamp, es), chan, key, Today(stamp, es) - 13);
  }

  lemma WrapsIs(log: seq<Rec>, chan: CString, key: Key, g: nat -> nat)
    requires forall slot: nat :: g(slot) == Rounds(Live(log, chan, key, slot))
    ensures Wraps(log, chan, key) == SumSlots(g, DAYSAMPLES)
  {
    var f := (slot: nat) => Rounds(Live(log, chan, key, slot));
    SumSlotsEqual(f, g, DAYSAMPLES);
    assert Wraps(log, chan, key) == SumSlots(f, DAYSAMPLES);
  }

  lemma NoWraps(log: seq<Rec>, chan: CString, key: Key)
    ensures Wraps(log, chan, key) == 0 <==> forall slot: nat :: slot < DAYSAMPLES ==> Live(log, chan, key, slot) < WRAP
  {
    hide Live, SumSlots, Wraps;
    var f := (slot: nat) => Rounds(Live(log, chan, key, slot));
    WrapsIs(log, chan, key, f);
    SumSlotsZero(f, DAYSAMPLES);
    if Wraps(log, chan, key) == 0 {
      forall slot: nat | slot < DAYSAMPLES ensures Live(log, chan, key, slot) < WRAP { assert f(slot) == 0; }
    } else {
      var slot: nat :| slot < DAYSAMPLES && f(slot) != 0;
      assert Live(log, chan, key, slot) >= WRAP;
    }
  }

  lemma AgedIs(log: seq<Rec>, chan: CString, key: Key, lo: int, g: nat -> nat)
    requires forall slot: nat :: g(slot) == Aged(log, chan, key, lo, slot)
    ensures AgedTotal(log, chan, key, lo) == SumSlots(g, DAYSAMPLES)
  {
    var f := (slot: nat) => Aged(log, chan, key, lo, slot);
    SumSlotsEqual(f, g, DAYSAMPLES);
    assert AgedTotal(log, chan, key, lo) == SumSlots(f, DAYSAMPLES);
  }

  lemma NoneAged(log: seq<Rec>, chan: CString, key: Key, lo: int)
    ensures AgedTotal(log, chan, key, lo) == 0 <==>
            forall slot: nat :: slot < DAYSAMPLES ==> Aged(log, chan, key, lo, slot) == 0
  {
    hide Aged, SumSlots, AgedTotal;
    var f := (slot: nat) => Aged(log, chan, key, lo, slot);
    AgedIs(log, chan, key, lo, f);
    SumSlotsZero(f, DAYSAMPLES);
    if AgedTotal(log, chan, key, lo) == 0 {
      forall slot: nat | slot < DAYSAMPLES ensures Aged(log, chan, key, lo, slot) == 0 { assert f(slot) == 0; }
    } else {
      var slot: nat :| slot < DAYSAMPLES && f(slot) != 0;
      assert Aged(log, chan, key, lo, slot) != 0;
    }
  }

  /**
   * In every run whose rotations go forward and in which no counter went round, a score is the number of
   * registrations of the last fourteen days if and only if no slot still counts an older one.
   */
  lemma ScoreExact(stamp: nat, es: seq<Event>, chan: CString, key: Key)
    requires Forward(stamp, es)
    requires forall slot: nat :: slot < DAYSAMPLES ==> Live(Log(stamp, es), chan, key, slot) < WRAP
    ensures var log, lo: int := Log(stamp, es), Today(stamp, es) - 13;
            ScoreIn(Run(stamp, es), chan, key) == Window(log, chan, key, lo)
            <==> forall slot: nat :: slot < DAYSAMPLES ==> Aged(log, chan, key, lo, slot) == 0
  {
    hide *;
    ScoreBalance(stamp, es, chan, key);
    NoWraps(Log(stamp, es), chan, key);
    NoneAged(Log(stamp, es), chan, key, Today(stamp, es) - 13);
  }

  // ---------------------------------------------------------------- runs that rotate every day

  lemma DailySlot(stamp: nat, es: seq<Event>, chan: CString, key: Key, slot: nat)
    requires Daily(stamp, es) && slot < DAYSAMPLES
    ensures var log, today := Log(stamp, es), Today(stamp, es);
            && Aged(log, chan, key, today - 13, slot) == 0
            && Live(log, chan, key, slot) == OnDay(log, chan, key, DayOf(today, slot))
  {
    DailyDated(stamp, es);
    DailyForward(stamp, es);
    ForwardOrdered(stamp, es);
    DatedSlot(Log(stamp, es), Today(stamp, es), chan, key, slot);
    hide *;
  }

  lemma DatedSlot(log: seq<Rec>, today: nat, chan: CString, key: Key, slot: nat)
    requires Dated(log, today) && Ordered(log, today) && slot < DAYSAMPLES
    ensures Aged(log, chan, key, today - 13, slot) == 0
    ensures Live(log, chan, key, slot) == OnDay(log, chan, key, DayOf(today, slot))
  {
    var lo: int := today - 13;
    LiveIsRecent(log, today, chan, key, slot);
    LiveSplits(log, today, chan, key, lo, slot);
    SlotIsDay(log, today, today, chan, key, slot);
    hide *;
  }

  /**
   * In every run that rotates once a day, a score is the number of registrations of the last fourteen days if
   * and only if none of those days holds 65536 of them.
   */
  lemma ScoreIsRecentCount(stamp: nat, es: seq<Event>, chan: CString, key: Key)
    requires Daily(stamp, es)
    ensures var log, today := Log(stamp, es), Today(stamp, es);
            ScoreIn(Run(stamp, es), chan, key) == Window(log, chan, key, today - 13)
            <==> forall slot: nat :: slot < DAYSAMPLES ==> OnDay(log, chan, key, DayOf(today, slot)) < WRAP
  {
    hide *;
    var log := Log(stamp, es);
    DailyForward(stamp, es);
    ScoreBalance(stamp, es, chan, key);
    DailyNoneAged(stamp, es, chan, key);
    DailyNoWraps(stamp, es, chan, key);
    WrapCosts(Wraps(log, chan, key));
  }

  lemma DailyNoneAged(stamp: nat, es: seq<Event>, chan: CString, key: Key)
    requires Daily(stamp, es)
    ensures AgedTotal(Log(stamp, es), chan, key, Today(stamp, es) - 13) == 0
  {
    var log, lo: int := Log(stamp, es), Today(stamp, es) - 13;
    hide *;
    forall slot: nat | slot < DAYSAMPLES ensures Aged(log, chan, key, lo, slot) == 0 {
      DailySlot(stamp, es, chan, key, slot);
    }
    NoneAged(log, chan, key, lo);
  }

  lemma DailyNoWraps(stamp: nat, es: seq<Event>, chan: CString, key: Key)
    requires Daily(stamp, es)
    ensures var log, today := Log(stamp, es), Today(stamp, es);
            Wraps(log, chan, key) == 0
            <==> forall slot: nat :: slot < DAYSAMPLES ==> OnDay(log, chan, key, DayOf(today, slot)) < WRAP
  {
    hide *;
    var log, today := Log(stamp, es), Today(stamp, es);
    NoWraps(log, chan, key);
    if Wraps(log, chan, key) == 0 {
      forall slot: nat | slot < DAYSAMPLES ensures OnDay(log, chan, key, DayOf(today, slot)) < WRAP {
        DailySlot(stamp, es, chan, key, slot);
      }
    } else {
      var slot: nat :| slot < DAYSAMPLES && Live(log, chan, key, slot) >= WRAP;
      DailySlot(stamp, es, chan, key, slot);
    }
  }

  lemma WrapCosts(n: nat)
    ensures WRAP * n == 0 <==> n == 0
  {
  }

  // ---------------------------------------------------------------- runs that end in a jump

  /** After a jump from today to next the slot still counts a day that has left the window. */
  ghost predicate Stale(log: seq<Rec>, today: nat, next: nat, chan: CString, key: Key, slot: nat) {
    slot != next % DAYSAMPLES && DayOf(today, slot) < next - 13 && OnDay(log, chan, key, DayOf(today, slot)) > 0
  }

  lemma JumpLogged(stamp: nat, es: seq<Event>, next: nat)
    ensures Log(stamp, es + [UpdateDay(next)]) == Log(stamp, es) + [Rotation(next)]
  {
    assert (es + [UpdateDay(next)])[..|es|] == es;
    hide Run;
  }

  lemma JumpedSlot(log: seq<Rec>, today: nat, next: nat, chan: CString, key: Key, slot: nat)
    requires Dated(log, today) && Ordered(log, today) && today < next && slot < DAYSAMPLES
    ensures var after := log + [Rotation(next)];
            && (Aged(after, chan, key, next - 13, slot) == 0 <==> !Stale(log, today, next, chan, key, slot))
            && Live(after, chan, key, slot) <= OnDay(log, chan, key, DayOf(today, slot))
  {
    var after := log + [Rotation(next)];
    assert after[..|log|] == log;
    assert Ordered(after, next);
    RotationExact(log, today, next, chan, key, slot);
    LiveIsRecent(log, today, chan, key, slot);
    SlotIsDay(log, today, today, chan, key, slot);
    LiveSplits(after, next, chan, key, next - 13, slot);
    hide Dated, DayOf, OnDay, Aged, InSlot;
  }

  /**
   * In every run that rotates once a day and then to any later day: a score is the number of registrations
   * of the last fourteen days if and only if no slot is stale.
   */
  lemma JumpedScoreExact(stamp: nat, es: seq<Event>, next: nat, chan: CString, key: Key)
    requires Daily(stamp, es) && Today(stamp, es) < next
    requires forall slot: nat :: slot < DAYSAMPLES ==>
               OnDay(Log(stamp, es), chan, key, DayOf(Today(stamp, es), slot)) < WRAP
    ensures var fs := es + [UpdateDay(next)];
            ScoreIn(Run(stamp, fs), chan, key) == Window(Log(stamp, fs), chan, key, next - 13)
            <==> forall slot: nat :: slot < DAYSAMPLES ==>
                   !Stale(Log(stamp, es), Today(stamp, es), next, chan, key, slot)
  {
    hide *;
    JumpForward(stamp, es, next);
    DailyDated(stamp, es);
    JumpedSlots(Log(stamp, es), Today(stamp, es), next, chan, key);
    ScoreExact(stamp, es + [UpdateDay(next)], chan, key);
  }

  lemma JumpedSlots(log: seq<Rec>, today: nat, next: nat, chan: CString, key: Key)
    requires Dated(log, today) && Ordered(log, today) && today < next
    requires forall slot: nat :: slot < DAYSAMPLES ==> OnDay(log, chan, key, DayOf(today, slot)) < WRAP
    ensures var after, lo: int := log + [Rotation(next)], next - 13;
            && (forall slot: nat :: slot < DAYSAMPLES ==> Live(after, chan, key, slot) < WRAP)
            && ((forall slot: nat :: slot < DAYSAMPLES ==> Aged(after, chan, key, lo, slot) == 0)
                <==> forall slot: nat :: slot < DAYSAMPLES ==> !Stale(log, today, next, chan, key, slot))
  {
    hide *;
    var after, lo: int := log + [Rotation(next)], next - 13;
    forall slot: nat | slot < DAYSAMPLES ensures Live(after, chan, key, slot) < WRAP {
      assert OnDay(log, chan, key, DayOf(today, slot)) < WRAP;
      JumpedSlot(log, today, next, chan, key, slot);
    }
    if forall slot: nat :: slot < DAYSAMPLES ==> Aged(after, chan, key, lo, slot) == 0 {
      forall slot: nat | slot < DAYSAMPLES ensures !Stale(log, today, next, chan, key, slot) {
        JumpedSlot(log, today, next, chan, key, slot);
      }
    } else {
      var slot: nat :| slot < DAYSAMPLES && Aged(after, chan, key, lo, slot) != 0;
      JumpedSlot(log, today, next, chan, key, slot);
    }
  }

  lemma JumpForward(stamp: nat, es: seq<Event>, next: nat)
    requires Daily(stamp, es) && Today(stamp, es) < next
    ensures var fs := es + [UpdateDay(next)];
            Forward(stamp, fs) && Today(stamp, fs) == next && Log(stamp, fs) == Log(stamp, es) + [Rotation(next)]
    ensures Ordered(Log(stamp, es), Today(stamp, es))
  {
    assert (es + [UpdateDay(next)])[..|es|] == es;
    DailyForward(stamp, es);
    ForwardOrdered(stamp, es);
    JumpLogged(stamp, es, next);
    hide Log, Run;
  }

  lemma TotalIs(log: seq<Rec>, chan: CString, key: Key, g: nat -> nat)
    requires forall slot: nat :: g(slot) == Wrapped(Live(log, chan, key, slot))
    ensures Total(log, chan, key) == SumSlots(g, DAYSAMPLES)
  {
    var f := (slot: nat) => Wrapped(Live(log, chan, key, slot));
    SumSlotsEqual(f, g, DAYSAMPLES);
    assert Total(log, chan, key) == SumSlots(f, DAYSAMPLES);
  }

  /** The run that shows it: one registration on day 0, then a rotation to day 15. */
  ghost function Jump(name: CString, user: CString, host: CString): seq<Event> {
    [SetWrite(Some(name)), Event.RegisterOp(user, host)] + [UpdateDay(15)]
  }

  lemma OneRegistrationLogged(name: CString, user: CString, host: CString)
    requires Bounded(name, MAXCHANNELNAME) && Bounded(user, USERLEN) && Bounded(host, HOSTLEN)
    ensures var es := [SetWrite(Some(name)), Event.RegisterOp(user, host)];
            Log(0, es) == [Point(IrcFold(name), KeyOf(user, host), 0)] && Today(0, es) == 0
  {
    var a, b := SetWrite(Some(name)), Event.RegisterOp(user, host);
    assert [a, b][..1] == [a] && [a][..0] == [] && [] + [a] == [a];
    assert Run(0, []) == Init(0) && Today(0, []) == 0 && Log(0, []) == [];
    RunSnoc(0, [], a);
    OpensEmpty(name, user, host);
    assert Log(0, [a]) == [] && Today(0, [a]) == 0;
    hide Run;
    assert Log(0, [a, b]) == Log(0, [a]) + Logged(Run(0, [a]), 0, b);
  }

  lemma OpensEmpty(name: CString, user: CString, host: CString)
    requires Bounded(name, MAXCHANNELNAME) && Bounded(user, USERLEN) && Bounded(host, HOSTLEN)
    ensures Sane(Step(Init(0), SetWrite(Some(name))))
    ensures Logged(Step(Init(0), SetWrite(Some(name))), 0, Event.RegisterOp(user, host))
            == [Point(IrcFold(name), KeyOf(user, host), 0)]
  {
    StepSane(Init(0), SetWrite(Some(name)));
  }

  lemma OnePointLive(chan: CString, key: Key, slot: nat)
    requires slot < DAYSAMPLES
    ensures Wrapped(Live([Point(chan, key, 0)] + [Rotation(15)], chan, key, slot)) == if slot == 0 then 1 else 0
  {
    var p := [Point(chan, key, 0)];
    assert p[..0] == [];
    LiveSnoc(p, Rotation(15), chan, key, slot);
    assert Live(p, chan, key, slot) == if slot == 0 then 1 else 0;
  }

  lemma OnePointTotal(chan: CString, key: Key)
    ensures Total([Point(chan, key, 0)] + [Rotation(15)], chan, key) == 1
  {
    hide *;
    var log := [Point(chan, key, 0)] + [Rotation(15)];
    var g, zero := (slot: nat) => Wrapped(Live(log, chan, key, slot)), (slot: nat) => 0;
    forall slot: nat | slot < DAYSAMPLES ensures g(slot) == zero(slot) + if slot == 0 then 1 else 0 {
      OnePointLive(chan, key, slot);
    }
    SomeSlots();
    TotalIs(log, chan, key, g);
    SumSlotsPlus(zero, g, 0, DAYSAMPLES);
    AllZero(DAYSAMPLES);
    SumSlotsEqual(zero, _ => 0, DAYSAMPLES);
  }

  lemma SomeSlots()
    ensures 0 < DAYSAMPLES
  {
  }

  lemma NoneRecent(chan: CString, key: Key)
    ensures Window([Point(chan, key, 0)] + [Rotation(15)], chan, key, 2) == 0
  {
    var p := [Point(chan, key, 0)];
    assert (p + [Rotation(15)])[..1] == p && p[..0] == [];
    assert Window(p, chan, key, 2) == 0;
  }

  /** Skip days and the score is stale: fifteen days later the only point still counts, though none is recent. */
  lemma SkippedDaysLeaveStalePoints(name: CString, user: CString, host: CString)
    requires Bounded(name, MAXCHANNELNAME) && Bounded(user, USERLEN) && Bounded(host, HOSTLEN)
    ensures var es, key := Jump(name, user, host), KeyOf(user, host);
            && ScoreIn(Run(0, es), IrcFold(name), key) == 1
            && Window(Log(0, es), IrcFold(name), key, Today(0, es) - 13) == 0
  {
    OneRegistrationLogged(name, user, host);
    JumpLogged(0, [SetWrite(Some(name)), Event.RegisterOp(user, host)], 15);
    assert Today(0, Jump(name, user, host)) == 15;
    ScoreIsLive(0, Jump(name, user, host), IrcFold(name), KeyOf(user, host));
    OnePointTotal(IrcFold(name), KeyOf(user, host));
    NoneRecent(IrcFold(name), KeyOf(user, host));
    hide IrcFold, KeyOf, Run, Log, ScoreIn, Total;
  }
}
