/** Every run of the fix lists: no channel twice, and a bounded, spaced number of attempts per entry. */
module FixRuns {
  import opened CStrings
  import opened FixTimes
  import opened FixLists

  /** A list entry with the times of the attempts made for it. */
  datatype Tracked<+T> = Tracked(entry: T, attempts: seq<int>)

  /** Entries on the lists, entries that left them, and the clock. */
  datatype State = State(
    manual: seq<Tracked<Manual>>, auto: seq<Tracked<Auto>>,
    pastManual: seq<Tracked<Manual>>, pastAuto: seq<Tracked<Auto>>, clock: int)

  datatype Event =
    | StartManual(name: CString, maxScore: nat)
    | StartAuto(name: CString, maxScore: nat)
    | DropAuto(name: CString)
    | ManualTick(split: bool, w: World)
    | AutoTick(split: bool, w: World)

  ghost function Entries<T>(l: seq<Tracked<T>>): (r: seq<T>)
    ensures |r| == |l| && forall i :: 0 <= i < |l| ==> r[i] == l[i].entry
  {
    seq(|l|, i requires 0 <= i < |l| => l[i].entry)
  }

  // ---------------------------------------------------------------- ticks that remember

  ghost function TrackManual(t: Tracked<Manual>, now: int, w: World): Tracked<Manual> {
    Tracked(WorkedManual(t.entry, now, w), if AttemptsManual(t.entry, now) then t.attempts + [now] else t.attempts)
  }

  ghost function TrackAuto(t: Tracked<Auto>, now: int): Tracked<Auto> {
    Tracked(WorkedAuto(t.entry, now), if AttemptsAuto(t.entry, now) then t.attempts + [now] else t.attempts)
  }

  /** Entries that stay (keep) or leave (!keep) in a manual tick. */
  ghost function ManualTicked(l: seq<Tracked<Manual>>, now: int, w: World, keep: bool): seq<Tracked<Manual>> {
    if l == [] then []
    else
      var t := l[|l| - 1];
      ManualTicked(l[..|l| - 1], now, w, keep)
      + (if FinishedManual(t.entry, now, w) != keep then [TrackManual(t, now, w)] else [])
  }

  ghost function AutoTicked(l: seq<Tracked<Auto>>, now: int, w: World, keep: bool): seq<Tracked<Auto>> {
    if l == [] then []
    else
      var t := l[|l| - 1];
      AutoTicked(l[..|l| - 1], now, w, keep)
      + (if FinishedAuto(t.entry, now, w) != keep then [TrackAuto(t, now)] else [])
  }

  /** Forgetting the attempts gives the tick of the lists themselves. */
  lemma {:induction false} TickedEntries(m: seq<Tracked<Manual>>, a: seq<Tracked<Auto>>, now: int, w: World)
    ensures Entries(ManualTicked(m, now, w, true)) == TickManual(Entries(m), now, w)
    ensures Entries(AutoTicked(a, now, w, true)) == TickAuto(Entries(a), now, w)
    decreases |m| + |a|
  {
    hide FinishedManual, FinishedAuto, WorkedManual, WorkedAuto, AttemptsManual, AttemptsAuto;
    if m != [] {
      var p, t := m[..|m| - 1], m[|m| - 1];
      TickedEntries(p, [], now, w);
      assert Entries(m)[..|m| - 1] == Entries(p);
      EntriesSnoc(ManualTicked(p, now, w, true), TrackManual(t, now, w));
    }
    if a != [] {
      var p, t := a[..|a| - 1], a[|a| - 1];
      TickedEntries([], p, now, w);
      assert Entries(a)[..|a| - 1] == Entries(p);
      EntriesSnoc(AutoTicked(p, now, w, true), TrackAuto(t, now));
    }
  }

  lemma EntriesSnoc<T>(l: seq<Tracked<T>>, t: Tracked<T>)
    ensures Entries(l + [t]) == Entries(l) + [t.entry] && Entries(l + []) == Entries(l)
  {
    assert l + [] == l;
  }

  ghost function Without(l: seq<Tracked<Auto>>, name: CString): seq<Tracked<Auto>> {
    if l == [] then []
    else if l[0].entry.name == name then l[1..]
    else [l[0]] + Without(l[1..], name)
  }

  ghost predicate Fixing(s: State, name: CString) {
    OnManual(Entries(s.manual), name) || OnAuto(Entries(s.auto), name)
  }

  ghost function Step(s: State, now: int, e: Event): State {
    var t := s.(clock := now);
    match e
    case StartManual(name, maxScore) =>
      if Fixing(s, name) then t
      else t.(manual := [Tracked(Manual(name, now, 0, 1, maxScore), [])] + s.manual)
    case StartAuto(name, maxScore) =>
      if Fixing(s, name) then t
      else t.(auto := [Tracked(Auto(name, now, 0, maxScore), [])] + s.auto)
    case DropAuto(name) => t.(auto := Without(s.auto, name))
    case ManualTick(split, w) =>
      if split then t
      else t.(manual := ManualTicked(s.manual, now, w, true),
              pastManual := s.pastManual + ManualTicked(s.manual, now, w, false))
    case AutoTick(split, w) =>
      if split then t
      else t.(auto := AutoTicked(s.auto, now, w, true),
              pastAuto := s.pastAuto + AutoTicked(s.auto, now, w, false))
  }

  // ---------------------------------------------------------------- what holds of one entry

  ghost predicate Spaced(s: seq<int>, gap: int) {
    forall i :: 0 < i < |s| ==> s[i] - s[i - 1] >= gap
  }

  /** Attempts are gap apart from first on; all, or all but the last one of an entry that has left, are in time. */
  ghost predicate Schedule(s: seq<int>, gap: int, first: int, last: int, left: bool) {
    && Spaced(s, gap)
    && (s != [] ==> s[0] >= first)
    && (forall i :: 0 <= i < |s| - (if left then 1 else 0) ==> s[i] <= last)
  }

  ghost predicate ManualOk(t: Tracked<Manual>, left: bool) {
    var e := t.entry;
    && (e.stage == 1 || e.stage == 2)
    && (e.stage == 1 ==> t.attempts == [])
    && (e.stage == 2 ==>
          && e.previous == (if t.attempts == [] then e.started + OCF_CHANFIX_DELAY - OCF_CHANFIX_INTERVAL
                            else t.attempts[|t.attempts| - 1])
          && Schedule(t.attempts, OCF_CHANFIX_INTERVAL, e.started + OCF_CHANFIX_DELAY,
                      e.started + OCF_CHANFIX_DELAY + OCF_CHANFIX_MAXIMUM, left))
  }

  ghost predicate AutoOk(t: Tracked<Auto>, clock: int, left: bool) {
    var e := t.entry;
    && e.started <= clock
    && (t.attempts != [] ==> e.previous == t.attempts[|t.attempts| - 1])
    && Schedule(t.attempts, OCF_AUTOFIX_INTERVAL, e.started, e.started + OCF_AUTOFIX_MAXIMUM, left)
  }

  lemma {:induction false} SpacedCount(s: seq<int>, gap: int)
    requires Spaced(s, gap) && s != []
    ensures s[|s| - 1] - s[0] >= (|s| - 1) * gap
  {
    if |s| > 1 {
      var p := s[..|s| - 1];
      SpacedCount(p, gap);
      assert (|s| - 1) * gap == (|p| - 1) * gap + gap;
    }
  }

  /** A schedule that fits in steps gaps holds at most one attempt more. */
  lemma ScheduleBound(s: seq<int>, gap: int, first: int, last: int, left: bool, steps: nat)
    requires Schedule(s, gap, first, last, left) && gap > 0 && last - first == steps * gap
    ensures |s| <= steps + (if left then 2 else 1)
  {
    var n := |s| - (if left then 1 else 0);
    if n > 0 {
      var p := s[..n];
      SpacedCount(p, gap);
      assert (n - 1) * gap <= steps * gap;
      if n - 1 > steps { Grows(steps, n - 1, gap); }
    }
  }

  lemma Grows(a: int, b: int, gap: int)
    requires a < b && gap > 0
    ensures a * gap < b * gap
  {
  }

  lemma AttemptBounds(m: Tracked<Manual>, a: Tracked<Auto>, clock: int, left: bool)
    ensures ManualOk(m, left) ==> |m.attempts| <= if left then 14 else 13
    ensures AutoOk(a, clock, left) ==> |a.attempts| <= if left then 8 else 7
  {
    if ManualOk(m, left) && m.entry.stage == 2 {
      ScheduleBound(m.attempts, 300, m.entry.started + 30, m.entry.started + 3630, left, 12);
    }
    if AutoOk(a, clock, left) {
      ScheduleBound(a.attempts, 600, a.entry.started, a.entry.started + 3600, left, 6);
    }
  }

  lemma ManualKeepsOk(t: Tracked<Manual>, now: int, w: World)
    requires ManualOk(t, false)
    ensures ManualOk(TrackManual(t, now, w), FinishedManual(t.entry, now, w))
    ensures TrackManual(t, now, w).entry.stage != t.entry.stage ==> t.entry.stage == 1
  {
  }

  lemma AutoKeepsOk(t: Tracked<Auto>, clock: int, now: int, w: World)
    requires AutoOk(t, clock, false) && clock <= now
    ensures AutoOk(TrackAuto(t, now), now, FinishedAuto(t.entry, now, w))
  {
  }

  // ---------------------------------------------------------------- every run

  lemma {:induction false} ManualTickedOk(l: seq<Tracked<Manual>>, now: int, w: World)
    requires forall t <- l :: ManualOk(t, false)
    ensures forall t <- ManualTicked(l, now, w, true) :: ManualOk(t, false)
    ensures forall t <- ManualTicked(l, now, w, false) :: ManualOk(t, true)
  {
    if l != [] {
      hide ManualOk, TrackManual, FinishedManual;
      ManualTickedOk(l[..|l| - 1], now, w);
      ManualKeepsOk(l[|l| - 1], now, w);
    }
  }

  lemma {:induction false} AutoTickedOk(l: seq<Tracked<Auto>>, clock: int, now: int, w: World)
    requires clock <= now && forall t <- l :: AutoOk(t, clock, false)
    ensures forall t <- AutoTicked(l, now, w, true) :: AutoOk(t, now, false)
    ensures forall t <- AutoTicked(l, now, w, false) :: AutoOk(t, now, true)
  {
    if l != [] {
      hide AutoOk, TrackAuto, FinishedAuto;
      AutoTickedOk(l[..|l| - 1], clock, now, w);
      AutoKeepsOk(l[|l| - 1], clock, now, w);
    }
  }

  lemma {:induction false} WithoutPart(l: seq<Tracked<Auto>>, name: CString)
    ensures forall t <- Without(l, name) :: t in l
    ensures (forall i, j :: 0 <= i < j < |l| ==> l[i].entry.name != l[j].entry.name) ==>
              forall i, j :: 0 <= i < j < |Without(l, name)| ==> Without(l, name)[i].entry.name != Without(l, name)[j].entry.name
  {
    if l != [] && l[0].entry.name != name {
      WithoutPart(l[1..], name);
      var r := Without(l[1..], name);
      forall i | 0 <= i < |r| ensures r[i] in l[1..] {}
    }
  }

  lemma LaterAuto(l: seq<Tracked<Auto>>, clock: int, now: int, left: bool)
    requires clock <= now && forall t <- l :: AutoOk(t, clock, left) || AutoOk(t, clock, false)
    ensures forall t <- l :: AutoOk(t, now, left) || AutoOk(t, now, false)
  {
  }

  ghost predicate Oks(s: State) {
    && (forall t <- s.manual :: ManualOk(t, false))
    && (forall t <- s.pastManual :: ManualOk(t, true) || ManualOk(t, false))
    && (forall t <- s.auto :: AutoOk(t, s.clock, false))
    && (forall t <- s.pastAuto :: AutoOk(t, s.clock, true) || AutoOk(t, s.clock, false))
  }

  lemma StepOks(s: State, now: int, e: Event)
    requires Oks(s) && s.clock <= now
    ensures Oks(Step(s, now, e))
  {
    LaterAuto(s.auto, s.clock, now, false);
    LaterAuto(s.pastAuto, s.clock, now, true);
    match e
    case StartManual(name, maxScore) => assert ManualOk(Tracked(Manual(name, now, 0, 1, maxScore), []), false);
    case StartAuto(name, maxScore) => assert AutoOk(Tracked(Auto(name, now, 0, maxScore), []), now, false);
    case DropAuto(name) => WithoutPart(s.auto, name);
    case ManualTick(split, w) => ManualTickedOk(s.manual, now, w);
    case AutoTick(split, w) => AutoTickedOk(s.auto, s.clock, now, w);
  }

  lemma StepExclusive(s: State, now: int, e: Event)
    requires Exclusive(Entries(s.manual), Entries(s.auto))
    ensures var t := Step(s, now, e); Exclusive(Entries(t.manual), Entries(t.auto))
  {
    hide ManualTicked, AutoTicked, Without;
    match e
    case StartManual(name, maxScore) =>
      var x := Tracked(Manual(name, now, 0, 1, maxScore), []);
      assert Entries([x] + s.manual) == [x.entry] + Entries(s.manual);
      if !Fixing(s, name) { AddExclusive(Entries(s.manual), Entries(s.auto), x.entry); }
    case StartAuto(name, maxScore) =>
      var x := Tracked(Auto(name, now, 0, maxScore), []);
      assert Entries([x] + s.auto) == [x.entry] + Entries(s.auto);
      if !Fixing(s, name) { AddAutoExclusive(Entries(s.manual), Entries(s.auto), x.entry); }
    case DropAuto(name) => DropExclusive(s, name);
    case ManualTick(split, w) => if !split { ManualTickExclusive(s, now, w); }
    case AutoTick(split, w) => if !split { AutoTickExclusive(s, now, w); }
  }

  lemma DropExclusive(s: State, name: CString)
    requires Exclusive(Entries(s.manual), Entries(s.auto))
    ensures Exclusive(Entries(s.manual), Entries(Without(s.auto, name)))
  {
    var r := Without(s.auto, name);
    WithoutPart(s.auto, name);
    hide Without;
    forall e: Auto <- Entries(r) ensures OnAuto(Entries(s.auto), e.name) {
      var i :| 0 <= i < |r| && Entries(r)[i] == e;
      assert r[i] in s.auto;
      var j :| 0 <= j < |s.auto| && s.auto[j] == r[i];
      assert Entries(s.auto)[j] == e;
    }
    PartExclusive(Entries(s.manual), Entries(s.auto), Entries(s.manual), Entries(r));
  }

  lemma ManualTickExclusive(s: State, now: int, w: World)
    requires Exclusive(Entries(s.manual), Entries(s.auto))
    ensures Exclusive(Entries(ManualTicked(s.manual, now, w, true)), Entries(s.auto))
  {
    hide TickManual, ManualTicked, TickAuto, AutoTicked;
    TickedEntries(s.manual, s.auto, now, w);
    TickManualNames(Entries(s.manual), now, w);
    PartExclusive(Entries(s.manual), Entries(s.auto), TickManual(Entries(s.manual), now, w), Entries(s.auto));
  }

  lemma AutoTickExclusive(s: State, now: int, w: World)
    requires Exclusive(Entries(s.manual), Entries(s.auto))
    ensures Exclusive(Entries(s.manual), Entries(AutoTicked(s.auto, now, w, true)))
  {
    hide TickManual, ManualTicked, TickAuto, AutoTicked;
    TickedEntries(s.manual, s.auto, now, w);
    TickAutoNames(Entries(s.auto), now, w);
    PartExclusive(Entries(s.manual), Entries(s.auto), Entries(s.manual), TickAuto(Entries(s.auto), now, w));
  }

  lemma AddExclusive(m: seq<Manual>, a: seq<Auto>, x: Manual)
    requires Exclusive(m, a) && !OnManual(m, x.name) && !OnAuto(a, x.name)
    ensures Exclusive([x] + m, a)
  {
  }

  lemma AddAutoExclusive(m: seq<Manual>, a: seq<Auto>, x: Auto)
    requires Exclusive(m, a) && !OnManual(m, x.name) && !OnAuto(a, x.name)
    ensures Exclusive(m, [x] + a)
  {
  }

  lemma PartExclusive(m: seq<Manual>, a: seq<Auto>, n: seq<Manual>, b: seq<Auto>)
    requires Exclusive(m, a)
    requires forall e <- n :: OnManual(m, e.name)
    requires forall e <- b :: OnAuto(a, e.name)
    requires forall i, j :: 0 <= i < j < |n| ==> n[i].name != n[j].name
    requires forall i, j :: 0 <= i < j < |b| ==> b[i].name != b[j].name
    ensures Exclusive(n, b)
  {
    forall i, j | 0 <= i < |n| && 0 <= j < |b| ensures n[i].name != b[j].name {
      assert OnManual(m, n[i].name) && OnAuto(a, b[j].name);
    }
  }

  /** Events with their times. */
  datatype Timed = Timed(now: int, event: Event)

  ghost predicate Monotone(start: int, es: seq<Timed>) {
    es != [] ==>
      Monotone(start, es[..|es| - 1]) && Clock(start, es[..|es| - 1]) <= es[|es| - 1].now
  }

  ghost function Clock(start: int, es: seq<Timed>): int {
    if es == [] then start else es[|es| - 1].now
  }

  ghost function Run(start: int, es: seq<Timed>): (s: State)
    ensures s.clock == Clock(start, es)
  {
    if es == [] then State([], [], [], [], start)
    else Step(Run(start, es[..|es| - 1]), es[|es| - 1].now, es[|es| - 1].event)
  }

  /**
   * In every run: no channel is on both lists or twice on one; an autofix gets at most 7 attempts while
   * listed and 8 in all, a manual fix 13 and 14, spaced by their intervals, the first manual one at least
   * OCF_CHANFIX_DELAY after stage one.
   */
  lemma {:induction false} RunBounded(start: int, es: seq<Timed>)
    requires Monotone(start, es)
    ensures var s := Run(start, es);
            && Exclusive(Entries(s.manual), Entries(s.auto)) && Oks(s)
            && (forall t <- s.manual :: |t.attempts| <= 13)
            && (forall t <- s.pastManual :: |t.attempts| <= 14)
            && (forall t <- s.auto :: |t.attempts| <= 7)
            && (forall t <- s.pastAuto :: |t.attempts| <= 8)
  {
    if es != [] {
      var p, e := es[..|es| - 1], es[|es| - 1];
      RunBounded(start, p);
      StepExclusive(Run(start, p), e.now, e.event);
      StepOks(Run(start, p), e.now, e.event);
    }
    OksBounded(Run(start, es));
  }

  lemma OksBounded(s: State)
    requires Oks(s)
    ensures (forall t <- s.manual :: |t.attempts| <= 13) && (forall t <- s.pastManual :: |t.attempts| <= 14)
    ensures (forall t <- s.auto :: |t.attempts| <= 7) && (forall t <- s.pastAuto :: |t.attempts| <= 8)
  {
    var dm, da := Tracked(Manual([], 0, 0, 0, 0), []), Tracked(Auto([], 0, 0, 0), []);
    forall t <- s.manual + s.pastManual
      ensures (ManualOk(t, false) ==> |t.attempts| <= 13) && (ManualOk(t, true) ==> |t.attempts| <= 14)
    {
      AttemptBounds(t, da, 0, false);
      AttemptBounds(t, da, 0, true);
    }
    forall t <- s.auto + s.pastAuto
      ensures (AutoOk(t, s.clock, false) ==> |t.attempts| <= 7) && (AutoOk(t, s.clock, true) ==> |t.attempts| <= 8)
    {
      AttemptBounds(dm, t, s.clock, false);
      AttemptBounds(dm, t, s.clock, true);
    }
    hide ManualOk, AutoOk;
  }
}
