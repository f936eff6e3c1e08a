/** What one tick does to an entry of the fix lists, written out in seconds. */
module FixLaws {
  import opened CStrings
  import opened FixLists
  import FixRuns

  /** A manual entry after a tick; none when it leaves the list. */
  function ManualAfter(e: Manual, now: int, present: bool, completes: bool): Option<Manual> {
    if e.stage == 1 then
      if present then Some(Manual(e.name, now, now - 270, 2, e.maxScore)) else None
    else if e.previous + 300 <= now && (!present || completes) then None
    else if e.started + 3630 < now then None
    else Some(Manual(e.name, e.started, if e.previous + 300 <= now then now else e.previous, e.stage, e.maxScore))
  }

  function AutoAfter(e: Auto, now: int, present: bool, completes: bool): Option<Auto> {
    if e.previous + 600 <= now && (!present || completes) then None
    else if e.started + 3600 < now then None
    else Some(Auto(e.name, e.started, if e.previous + 600 <= now then now else e.previous, e.maxScore))
  }

  ghost function Listed<T>(o: Option<T>): seq<T> {
    if o.None? then [] else [o.value]
  }

  lemma ManualEntry(e: Manual, now: int, w: World)
    ensures (if FinishedManual(e, now, w) then [] else [WorkedManual(e, now, w)])
            == Listed(ManualAfter(e, now, w.present(e.name), w.completes(e.name)))
  {
  }

  lemma AutoEntry(e: Auto, now: int, w: World)
    ensures (if FinishedAuto(e, now, w) then [] else [WorkedAuto(e, now)])
            == Listed(AutoAfter(e, now, w.present(e.name), w.completes(e.name)))
  {
  }

  ghost function ManualsAfter(l: seq<Manual>, now: int, w: World): seq<Manual> {
    if l == [] then []
    else Listed(ManualAfter(l[0], now, w.present(l[0].name), w.completes(l[0].name))) + ManualsAfter(l[1..], now, w)
  }

  ghost function AutosAfter(l: seq<Auto>, now: int, w: World): seq<Auto> {
    if l == [] then []
    else Listed(AutoAfter(l[0], now, w.present(l[0].name), w.completes(l[0].name))) + AutosAfter(l[1..], now, w)
  }

  lemma {:induction false} ManualsSnoc(l: seq<Manual>, e: Manual, now: int, w: World)
    ensures ManualsAfter(l + [e], now, w)
            == ManualsAfter(l, now, w) + Listed(ManualAfter(e, now, w.present(e.name), w.completes(e.name)))
  {
    hide ManualAfter;
    if l == [] {
      assert ([] + [e])[1..] == [] && ([] + [e])[0] == e;
    } else {
      assert (l + [e])[0] == l[0] && (l + [e])[1..] == l[1..] + [e];
      ManualsSnoc(l[1..], e, now, w);
    }
  }

  lemma {:induction false} AutosSnoc(l: seq<Auto>, e: Auto, now: int, w: World)
    ensures AutosAfter(l + [e], now, w)
            == AutosAfter(l, now, w) + Listed(AutoAfter(e, now, w.present(e.name), w.completes(e.name)))
  {
    hide AutoAfter;
    if l == [] {
      assert ([] + [e])[1..] == [] && ([] + [e])[0] == e;
    } else {
      assert (l + [e])[0] == l[0] && (l + [e])[1..] == l[1..] + [e];
      AutosSnoc(l[1..], e, now, w);
    }
  }

  /** A tick of the manual list: entry by entry, in order. */
  lemma {:induction false} ManualTickExact(l: seq<Manual>, now: int, w: World)
    ensures TickManual(l, now, w) == ManualsAfter(l, now, w)
  {
    hide ManualAfter, FinishedManual, WorkedManual;
    if l != [] {
      var p, e := l[..|l| - 1], l[|l| - 1];
      ManualTickExact(p, now, w);
      ManualEntry(e, now, w);
      ManualsSnoc(p, e, now, w);
      assert p + [e] == l;
    }
  }

  lemma {:induction false} AutoTickExact(l: seq<Auto>, now: int, w: World)
    ensures TickAuto(l, now, w) == AutosAfter(l, now, w)
  {
    hide AutoAfter, FinishedAuto, WorkedAuto;
    if l != [] {
      var p, e := l[..|l| - 1], l[|l| - 1];
      AutoTickExact(p, now, w);
      AutoEntry(e, now, w);
      AutosSnoc(p, e, now, w);
      assert p + [e] == l;
    }
  }

  lemma {:induction false} ManualMembers(l: seq<Manual>, now: int, w: World, r: Manual)
    ensures r in ManualsAfter(l, now, w) <==>
            exists e <- l :: ManualAfter(e, now, w.present(e.name), w.completes(e.name)) == Some(r)
  {
    hide ManualAfter;
    if l != [] {
      ManualMembers(l[1..], now, w, r);
      assert l == [l[0]] + l[1..];
    }
  }

  lemma {:induction false} AutoMembers(l: seq<Auto>, now: int, w: World, r: Auto)
    ensures r in AutosAfter(l, now, w) <==>
            exists e <- l :: AutoAfter(e, now, w.present(e.name), w.completes(e.name)) == Some(r)
  {
    hide AutoAfter;
    if l != [] {
      AutoMembers(l[1..], now, w, r);
      assert l == [l[0]] + l[1..];
    }
  }

  /** The attempt of this tick, or finding no channel, completes the fix. */
  predicate CompletesManual(e: Manual, now: int, w: World) {
    if e.stage == 1 then !w.present(e.name) else e.previous + 300 <= now && (!w.present(e.name) || w.completes(e.name))
  }

  predicate CompletesAuto(e: Auto, now: int, w: World) {
    e.previous + 600 <= now && (!w.present(e.name) || w.completes(e.name))
  }

  lemma AfterFacts(m: Manual, a: Auto, now: int, w: World)
    ensures var r := ManualAfter(m, now, w.present(m.name), w.completes(m.name));
            (CompletesManual(m, now, w) ==> r == None) && (r.Some? ==> r.value.name == m.name)
    ensures var r := AutoAfter(a, now, w.present(a.name), w.completes(a.name));
            (CompletesAuto(a, now, w) ==> r == None) && (r.Some? ==> r.value.name == a.name)
  {
  }

  /** A completed manual fix leaves the list. */
  lemma CompletedManualLeaves(l: seq<Manual>, i: nat, now: int, w: World)
    requires i < |l| && CompletesManual(l[i], now, w) && forall a, b :: 0 <= a < b < |l| ==> l[a].name != l[b].name
    ensures !OnManual(TickManual(l, now, w), l[i].name)
  {
    hide ManualAfter, CompletesManual, TickManual, ManualsAfter;
    ManualTickExact(l, now, w);
    forall r <- TickManual(l, now, w) ensures r.name != l[i].name {
      ManualMembers(l, now, w, r);
      var f :| f in l && ManualAfter(f, now, w.present(f.name), w.completes(f.name)) == Some(r);
      var j :| 0 <= j < |l| && l[j] == f;
      AfterFacts(f, Auto(f.name, 0, 0, 0), now, w);
    }
  }

  /** So does a completed automatic one. */
  lemma CompletedAutoLeaves(l: seq<Auto>, i: nat, now: int, w: World)
    requires i < |l| && CompletesAuto(l[i], now, w) && forall a, b :: 0 <= a < b < |l| ==> l[a].name != l[b].name
    ensures !OnAuto(TickAuto(l, now, w), l[i].name)
  {
    hide AutoAfter, CompletesAuto, TickAuto, AutosAfter;
    AutoTickExact(l, now, w);
    forall r <- TickAuto(l, now, w) ensures r.name != l[i].name {
      AutoMembers(l, now, w, r);
      var f :| f in l && AutoAfter(f, now, w.present(f.name), w.completes(f.name)) == Some(r);
      var j :| 0 <= j < |l| && l[j] == f;
      AfterFacts(Manual(f.name, 0, 0, 0, 0), f, now, w);
    }
  }

  /** A manual fix that is not completed and in time stays, and waits 300 seconds from each attempt to the next. */
  lemma OpenManualStays(l: seq<Manual>, e: Manual, now: int, w: World)
    requires e in l && e.stage != 1 && w.present(e.name) && !w.completes(e.name) && now <= e.started + 3630
    ensures e.(previous := if e.previous + 300 <= now then now else e.previous) in TickManual(l, now, w)
  {
    var r := e.(previous := if e.previous + 300 <= now then now else e.previous);
    ManualTickExact(l, now, w);
    ManualMembers(l, now, w, r);
  }

  lemma OpenAutoStays(l: seq<Auto>, e: Auto, now: int, w: World)
    requires e in l && w.present(e.name) && !w.completes(e.name) && now <= e.started + 3600
    ensures e.(previous := if e.previous + 600 <= now then now else e.previous) in TickAuto(l, now, w)
  {
    var r := e.(previous := if e.previous + 600 <= now then now else e.previous);
    AutoTickExact(l, now, w);
    AutoMembers(l, now, w, r);
  }

  /** The first attempt of a manual fix can come 30 seconds after the channel was found by a tick. */
  lemma StartedManualWaits(l: seq<Manual>, e: Manual, now: int, w: World)
    requires e in l && e.stage == 1 && w.present(e.name)
    ensures Manual(e.name, now, now + 30 - 300, 2, e.maxScore) in TickManual(l, now, w)
  {
    ManualTickExact(l, now, w);
    ManualMembers(l, now, w, Manual(e.name, now, now + 30 - 300, 2, e.maxScore));
  }

  /** The attempts recorded for an entry are those made: not in the first stage, and 300 or 600 seconds apart. */
  lemma AttemptsExact(m: FixRuns.Tracked<Manual>, a: FixRuns.Tracked<Auto>, now: int, w: World)
    ensures FixRuns.TrackManual(m, now, w).attempts ==
            m.attempts + if m.entry.stage != 1 && m.entry.previous + 300 <= now then [now] else []
    ensures FixRuns.TrackAuto(a, now).attempts == a.attempts + if a.entry.previous + 600 <= now then [now] else []
  {
    assert m.attempts + [] == m.attempts && a.attempts + [] == a.attempts;
  }

  /** Dropping a channel takes exactly the first entry of its name off the list. */
  lemma {:induction false} DropExact(l: seq<FixRuns.Tracked<Auto>>, name: CString, i: nat)
    requires i < |l| && l[i].entry.name == name && forall j :: 0 <= j < i ==> l[j].entry.name != name
    ensures FixRuns.Without(l, name) == l[..i] + l[i + 1..]
  {
    if i == 0 {
      assert l[..0] + l[1..] == l[1..];
    } else {
      var p := l[1..];
      DropExact(p, name, i - 1);
      assert l[..i] == [l[0]] + p[..i - 1] && l[i + 1..] == p[i..];
      assert [l[0]] + (p[..i - 1] + p[i..]) == [l[0]] + p[..i - 1] + p[i..];
    }
  }

  /** A channel that is not on it leaves the list alone. */
  lemma {:induction false} DropNone(l: seq<FixRuns.Tracked<Auto>>, name: CString)
    requires forall j :: 0 <= j < |l| ==> l[j].entry.name != name
    ensures FixRuns.Without(l, name) == l
  {
    if l != [] { DropNone(l[1..], name); }
  }

  // ---------------------------------------------------------------- one event of a run

  lemma EntriesFirst<T>(x: FixRuns.Tracked<T>, l: seq<FixRuns.Tracked<T>>)
    ensures FixRuns.Entries([x] + l) == [x.entry] + FixRuns.Entries(l)
  {
  }

  /** The manual list in a run is what the methods on the lists make of it. */
  lemma ManualEventExact(s: FixRuns.State, now: int, e: FixRuns.Event)
    ensures var r, m := FixRuns.Step(s, now, e), FixRuns.Entries(s.manual);
            && r.clock == now
            && FixRuns.Entries(r.manual) ==
               if e.StartManual? && !OnManual(m, e.name) && !OnAuto(FixRuns.Entries(s.auto), e.name)
               then [Manual(e.name, now, 0, 1, e.maxScore)] + m
               else if e.ManualTick? && !e.split then ManualsAfter(m, now, e.w) else m
  {
    match e
    case StartManual(name, maxScore) =>
      EntriesFirst(FixRuns.Tracked(Manual(name, now, 0, 1, maxScore), []), s.manual);
    case ManualTick(split, w) =>
      FixRuns.TickedEntries(s.manual, s.auto, now, w);
      ManualTickExact(FixRuns.Entries(s.manual), now, w);
    case _ =>
  }

  lemma AutoEventExact(s: FixRuns.State, now: int, e: FixRuns.Event)
    ensures var r, a := FixRuns.Step(s, now, e), FixRuns.Entries(s.auto);
            if e.DropAuto? then r.auto == FixRuns.Without(s.auto, e.name)
            else FixRuns.Entries(r.auto) ==
                 if e.StartAuto? && !OnManual(FixRuns.Entries(s.manual), e.name) && !OnAuto(a, e.name)
                 then [Auto(e.name, now, 0, e.maxScore)] + a
                 else if e.AutoTick? && !e.split then AutosAfter(a, now, e.w) else a
  {
    match e
    case StartAuto(name, maxScore) =>
      EntriesFirst(FixRuns.Tracked(Auto(name, now, 0, maxScore), []), s.auto);
    case AutoTick(split, w) =>
      FixRuns.TickedEntries(s.manual, s.auto, now, w);
      AutoTickExact(FixRuns.Entries(s.auto), now, w);
    case _ =>
  }

  /** A tick loses no entry: what does not stay is remembered as past. */
  lemma {:induction false} NoneLost(m: seq<FixRuns.Tracked<Manual>>, a: seq<FixRuns.Tracked<Auto>>, now: int, w: World)
    ensures |FixRuns.ManualTicked(m, now, w, true)| + |FixRuns.ManualTicked(m, now, w, false)| == |m|
    ensures |FixRuns.AutoTicked(a, now, w, true)| + |FixRuns.AutoTicked(a, now, w, false)| == |a|
    decreases |m| + |a|
  {
    if m != [] { NoneLost(m[..|m| - 1], [], now, w); }
    if a != [] { NoneLost([], a[..|a| - 1], now, w); }
  }
}
