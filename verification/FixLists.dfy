/** The two lists of channels being fixed, and the periodic ticks that work them off. */
module FixLists {
  import opened CStrings
  import opened Sequences
  import opened FixTimes


  datatype Manual = Manual(name: CString, started: int, previous: int, stage: int, maxScore: nat)
  datatype Auto = Auto(name: CString, started: int, previous: int, maxScore: nat)

  /** What the network looks like to one tick: does the channel exist, and would an attempt complete the fix. */
  datatype World = World(present: CString -> bool, completes: CString -> bool)

  function Done(w: World, name: CString): bool {
    !w.present(name) || w.completes(name)
  }

  // ---------------------------------------------------------------- one entry, one tick

  /** This tick makes an attempt to give ops. */
  predicate AttemptsManual(e: Manual, now: int) {
    e.stage != 1 && now - e.previous >= OCF_CHANFIX_INTERVAL
  }

  predicate AttemptsAuto(e: Auto, now: int) {
    now - e.previous >= OCF_AUTOFIX_INTERVAL
  }

  /** ocf_manual_fix_stage_one, or the time stamp of ocf_manual_fix_stage_two. */
  function WorkedManual(e: Manual, now: int, w: World): Manual {
    if e.stage == 1 then
      if w.present(e.name)
      then e.(stage := 2, previous := now + OCF_CHANFIX_DELAY - OCF_CHANFIX_INTERVAL, started := now) else e
    else if AttemptsManual(e, now) then e.(previous := now) else e
  }

  function WorkedAuto(e: Auto, now: int): Auto {
    if AttemptsAuto(e, now) then e.(previous := now) else e
  }

  predicate FinishedManual(e: Manual, now: int, w: World) {
    || (e.stage == 1 && !w.present(e.name))
    || (AttemptsManual(e, now) && Done(w, e.name))
    || now - WorkedManual(e, now, w).started > OCF_CHANFIX_MAXIMUM + OCF_CHANFIX_DELAY
  }

  predicate FinishedAuto(e: Auto, now: int, w: World) {
    || (AttemptsAuto(e, now) && Done(w, e.name))
    || now - e.started > OCF_AUTOFIX_MAXIMUM
  }

  // ---------------------------------------------------------------- whole lists

  ghost function TickManual(l: seq<Manual>, now: int, w: World): (r: seq<Manual>)
    ensures |r| <= |l|
  {
    if l == [] then []
    else TickManual(l[..|l| - 1], now, w)
         + (if FinishedManual(l[|l| - 1], now, w) then [] else [WorkedManual(l[|l| - 1], now, w)])
  }

  ghost function TickAuto(l: seq<Auto>, now: int, w: World): (r: seq<Auto>)
    ensures |r| <= |l|
  {
    if l == [] then []
    else TickAuto(l[..|l| - 1], now, w)
         + (if FinishedAuto(l[|l| - 1], now, w) then [] else [WorkedAuto(l[|l| - 1], now)])
  }

  ghost predicate OnManual(l: seq<Manual>, name: CString) {
    exists e <- l :: e.name == name
  }

  ghost predicate OnAuto(l: seq<Auto>, name: CString) {
    exists e <- l :: e.name == name
  }

  /** No name is on both lists or twice on one. */
  ghost predicate Exclusive(m: seq<Manual>, a: seq<Auto>) {
    && (forall i, j :: 0 <= i < j < |m| ==> m[i].name != m[j].name)
    && (forall i, j :: 0 <= i < j < |a| ==> a[i].name != a[j].name)
    && (forall i, j :: 0 <= i < |m| && 0 <= j < |a| ==> m[i].name != a[j].name)
  }

  lemma {:induction false} TickManualNames(l: seq<Manual>, now: int, w: World)
    requires forall i, j :: 0 <= i < j < |l| ==> l[i].name != l[j].name
    ensures var r := TickManual(l, now, w);
            && (forall e <- r :: OnManual(l, e.name))
            && (forall i, j :: 0 <= i < j < |r| ==> r[i].name != r[j].name)
  {
    if l != [] {
      var p := l[..|l| - 1];
      TickManualNames(p, now, w);
      hide TickManual;
      var r := TickManual(p, now, w);
      assert forall e <- p :: e in l;
      forall i | 0 <= i < |r| ensures r[i].name != l[|l| - 1].name {
        assert OnManual(p, r[i].name);
      }
      assert WorkedManual(l[|l| - 1], now, w).name == l[|l| - 1].name;
      TickManualLast(l, now, w);
    }
  }

  lemma TickManualLast(l: seq<Manual>, now: int, w: World)
    requires l != []
    ensures TickManual(l, now, w) ==
            TickManual(l[..|l| - 1], now, w)
            + (if FinishedManual(l[|l| - 1], now, w) then [] else [WorkedManual(l[|l| - 1], now, w)])
  {
  }

  lemma TickAutoLast(l: seq<Auto>, now: int, w: World)
    requires l != []
    ensures TickAuto(l, now, w) ==
            TickAuto(l[..|l| - 1], now, w)
            + (if FinishedAuto(l[|l| - 1], now, w) then [] else [WorkedAuto(l[|l| - 1], now)])
  {
  }

  lemma {:induction false} TickAutoNames(l: seq<Auto>, now: int, w: World)
    requires forall i, j :: 0 <= i < j < |l| ==> l[i].name != l[j].name
    ensures var r := TickAuto(l, now, w);
            && (forall e <- r :: OnAuto(l, e.name))
            && (forall i, j :: 0 <= i < j < |r| ==> r[i].name != r[j].name)
  {
    if l != [] {
      var p := l[..|l| - 1];
      TickAutoNames(p, now, w);
      TickAutoLast(l, now, w);
      hide TickAuto, FinishedAuto;
      var r := TickAuto(p, now, w);
      assert forall e <- p :: e in l;
      forall i | 0 <= i < |r| ensures r[i].name != l[|l| - 1].name {
        assert OnAuto(p, r[i].name);
      }
      assert WorkedAuto(l[|l| - 1], now).name == l[|l| - 1].name;
    }
  }

  /** Every unsplit tick past the window removes the entry. */
  lemma {:induction false} TickClears(m: seq<Manual>, a: seq<Auto>, now: int, w: World)
    ensures forall e <- TickManual(m, now, w) :: now - e.started <= OCF_CHANFIX_MAXIMUM + OCF_CHANFIX_DELAY
    ensures forall e <- TickAuto(a, now, w) :: now - e.started <= OCF_AUTOFIX_MAXIMUM
    decreases |m| + |a|
  {
    if m != [] { TickClears(m[..|m| - 1], [], now, w); }
    if a != [] { TickClears([], a[..|a| - 1], now, w); }
  }

  // ---------------------------------------------------------------- the lists as the module keeps them

  class Lists {
    var manual: seq<Manual>
    var auto: seq<Auto>
    var split: bool

    ghost predicate Valid()
      reads this
    {
      Exclusive(manual, auto)
    }

    constructor ()
      ensures Valid() && manual == [] && auto == [] && !split
    {
      manual, auto, split := [], [], false;
    }

    /** is_being_chanfixed. */
    method IsBeingChanfixed(channel: CString) returns (r: bool)
      ensures r <==> OnManual(manual, channel)
    {
      for i := 0 to |manual|
        invariant forall j :: 0 <= j < i ==> manual[j].name != channel
      {
        if manual[i].name == channel { return true; }
      }
      r := false;
    }

    /** is_being_autofixed. */
    method IsBeingAutofixed(channel: CString) returns (r: bool)
      ensures r <==> OnAuto(auto, channel)
    {
      for i := 0 to |auto|
        invariant forall j :: 0 <= j < i ==> auto[j].name != channel
      {
        if auto[i].name == channel { return true; }
      }
      r := false;
    }

    /** add_chanfix_channel: refused for a channel that is being fixed in either way. */
    method AddChanfix(channel: CString, now: int, maxScore: nat) returns (added: bool)
      requires Valid()
      modifies this`manual
      ensures Valid()
      ensures added <==> !OnManual(old(manual), channel) && !OnAuto(auto, channel)
      ensures manual == (if added then [Manual(channel, now, 0, 1, maxScore)] else []) + old(manual)
    {
      var m := IsBeingChanfixed(channel);
      var a := IsBeingAutofixed(channel);
      added := !m && !a;
      if added {
        manual := [Manual(channel, now, 0, 1, maxScore)] + manual;
      }
    }

    /** add_autofix_channel. */
    method AddAutofix(channel: CString, now: int, maxScore: nat) returns (added: bool)
      requires Valid()
      modifies this`auto
      ensures Valid()
      ensures added <==> !OnManual(manual, channel) && !OnAuto(old(auto), channel)
      ensures auto == (if added then [Auto(channel, now, 0, maxScore)] else []) + old(auto)
    {
      var m := IsBeingChanfixed(channel);
      var a := IsBeingAutofixed(channel);
      added := !m && !a;
      if added {
        auto := [Auto(channel, now, 0, maxScore)] + auto;
      }
    }

    /** del_chanfix_channel: drops the first entry of that name. */
    method DelChanfix(channel: CString) returns (ok: bool)
      modifies this`manual
      ensures ok <==> OnManual(old(manual), channel)
      ensures !ok ==> manual == old(manual)
      ensures ok ==> exists i: nat :: IsFirst(Names(old(manual), (e: Manual) => e.name), channel, i)
                                 && manual == old(manual)[..i] + old(manual)[i + 1..]
    {
      for i := 0 to |manual|
        invariant manual == old(manual)
        invariant forall j :: 0 <= j < i ==> manual[j].name != channel
      {
        if manual[i].name == channel {
          assert IsFirst(Names(manual, (e: Manual) => e.name), channel, i);
          manual := manual[..i] + manual[i + 1..];
          return true;
        }
      }
      ok := false;
    }

    /** del_autofix_channel. */
    method DelAutofix(channel: CString) returns (ok: bool)
      modifies this`auto
      ensures ok <==> OnAuto(old(auto), channel)
      ensures !ok ==> auto == old(auto)
      ensures ok ==> exists i: nat :: IsFirst(Names(old(auto), (e: Auto) => e.name), channel, i)
                                 && auto == old(auto)[..i] + old(auto)[i + 1..]
    {
      for i := 0 to |auto|
        invariant auto == old(auto)
        invariant forall j :: 0 <= j < i ==> auto[j].name != channel
      {
        if auto[i].name == channel {
          assert IsFirst(Names(auto, (e: Auto) => e.name), channel, i);
          auto := auto[..i] + auto[i + 1..];
          return true;
        }
      }
      ok := false;
    }

    /** The body of the manual tick at place i: work the entry, and delete it by name if it is done. */
    method WorkManualAt(i: nat, now: int, w: World) returns (gone: bool)
      requires Valid() && i < |manual|
      modifies this`manual
      ensures Valid() && gone == FinishedManual(old(manual)[i], now, w)
      ensures manual == if gone then old(manual)[..i] + old(manual)[i + 1..]
                        else old(manual)[i := WorkedManual(old(manual)[i], now, w)]
    {
      var e := manual[i];
      var fixed := (e.stage == 1 && !w.present(e.name)) || (AttemptsManual(e, now) && Done(w, e.name));
      var worked := WorkedManual(e, now, w);
      manual := manual[i := worked];
      gone := false;
      if fixed || now - worked.started > OCF_CHANFIX_MAXIMUM + OCF_CHANFIX_DELAY {
        FirstIsUnique(Names(manual, (e: Manual) => e.name), e.name, i);
        gone := DelChanfix(e.name);
      }
    }

    /** ocf_fix_chanfix_channels: walks the list while entries are deleted from it. */
    method FixChanfixChannels(now: int, w: World)
      requires Valid()
      modifies this`manual
      ensures Valid()
      ensures manual == if split then old(manual) else TickManual(old(manual), now, w)
    {
      hide TickManual, FinishedManual, WorkedManual, Exclusive, ManualHalf;
      if split { return; }
      ghost var was, n := manual, 0;
      ManualStarts(was, now, w);
      var i := 0;
      while i < |manual|
        invariant n <= |was| && |manual| - i == |was| - n
        invariant ManualHalf(was, manual, now, w, n, i) && Valid()
      {
        ManualStep(was, manual, now, w, n, i);
        var gone := WorkManualAt(i, now, w);
        if !gone { i := i + 1; }
        n := n + 1;
      }
      ManualDone(was, manual, now, w, i);
    }

    /** The body of the autofix tick at place i. */
    method WorkAutoAt(i: nat, now: int, w: World) returns (gone: bool)
      requires Valid() && i < |auto|
      modifies this`auto
      ensures Valid() && gone == FinishedAuto(old(auto)[i], now, w)
      ensures auto == if gone then old(auto)[..i] + old(auto)[i + 1..]
                      else old(auto)[i := WorkedAuto(old(auto)[i], now)]
    {
      var e := auto[i];
      var fixed := AttemptsAuto(e, now) && Done(w, e.name);
      auto := auto[i := WorkedAuto(e, now)];
      gone := false;
      if fixed || now - e.started > OCF_AUTOFIX_MAXIMUM {
        FirstIsUnique(Names(auto, (e: Auto) => e.name), e.name, i);
        gone := DelAutofix(e.name);
      }
    }

    /** ocf_fix_autofix_channels. */
    method FixAutofixChannels(now: int, w: World)
      requires Valid()
      modifies this`auto
      ensures Valid()
      ensures auto == if split then old(auto) else TickAuto(old(auto), now, w)
    {
      hide TickAuto, FinishedAuto, WorkedAuto, Exclusive, AutoHalf;
      if split { return; }
      ghost var was, n := auto, 0;
      AutoStarts(was, now, w);
      var i := 0;
      while i < |auto|
        invariant n <= |was| && |auto| - i == |was| - n
        invariant AutoHalf(was, auto, now, w, n, i) && Valid()
      {
        AutoStep(was, auto, now, w, n, i);
        var gone := WorkAutoAt(i, now, w);
        if !gone { i := i + 1; }
        n := n + 1;
      }
      AutoDone(was, auto, now, w, i);
    }
  }

  /** The list with its first n original entries worked off and i of them left. */
  ghost predicate ManualHalf(was: seq<Manual>, l: seq<Manual>, now: int, w: World, n: nat, i: nat) {
    n <= |was| && l == TickManual(was[..n], now, w) + was[n..] && i == |TickManual(was[..n], now, w)|
  }

  lemma ManualStarts(was: seq<Manual>, now: int, w: World)
    ensures ManualHalf(was, was, now, w, 0, 0)
  {
    assert was[..0] == [];
  }

  lemma ManualDone(was: seq<Manual>, l: seq<Manual>, now: int, w: World, i: nat)
    requires ManualHalf(was, l, now, w, |was|, i)
    ensures l == TickManual(was, now, w)
  {
    hide TickManual;
    assert was[..|was|] == was && was[|was|..] == [];
  }

  lemma ManualStep(was: seq<Manual>, l: seq<Manual>, now: int, w: World, n: nat, i: nat)
    requires ManualHalf(was, l, now, w, n, i) && n < |was| && i < |l|
    ensures FinishedManual(l[i], now, w) ==> ManualHalf(was, l[..i] + l[i + 1..], now, w, n + 1, i)
    ensures !FinishedManual(l[i], now, w) ==> ManualHalf(was, l[i := WorkedManual(l[i], now, w)], now, w, n + 1, i + 1)
  {
    hide FinishedManual, WorkedManual;
    assert was[..n + 1][..n] == was[..n];
    TickManualLast(was[..n + 1], now, w);
    hide TickManual;
    var done := TickManual(was[..n], now, w);
    AtTheSeam(done, was, n, WorkedManual(l[i], now, w));
  }

  ghost predicate AutoHalf(was: seq<Auto>, l: seq<Auto>, now: int, w: World, n: nat, i: nat) {
    n <= |was| && l == TickAuto(was[..n], now, w) + was[n..] && i == |TickAuto(was[..n], now, w)|
  }

  lemma AutoStarts(was: seq<Auto>, now: int, w: World)
    ensures AutoHalf(was, was, now, w, 0, 0)
  {
    assert was[..0] == [];
  }

  lemma AutoDone(was: seq<Auto>, l: seq<Auto>, now: int, w: World, i: nat)
    requires AutoHalf(was, l, now, w, |was|, i)
    ensures l == TickAuto(was, now, w)
  {
    hide TickAuto;
    assert was[..|was|] == was && was[|was|..] == [];
  }

  lemma AutoStep(was: seq<Auto>, l: seq<Auto>, now: int, w: World, n: nat, i: nat)
    requires AutoHalf(was, l, now, w, n, i) && n < |was| && i < |l|
    ensures FinishedAuto(l[i], now, w) ==> AutoHalf(was, l[..i] + l[i + 1..], now, w, n + 1, i)
    ensures !FinishedAuto(l[i], now, w) ==> AutoHalf(was, l[i := WorkedAuto(l[i], now)], now, w, n + 1, i + 1)
  {
    hide FinishedAuto, WorkedAuto;
    assert was[..n + 1][..n] == was[..n];
    TickAutoLast(was[..n + 1], now, w);
    hide TickAuto;
    var done := TickAuto(was[..n], now, w);
    AtTheSeam(done, was, n, WorkedAuto(l[i], now));
  }

  /** The names on a list. */
  ghost function Names<T>(l: seq<T>, name: T -> CString): (r: seq<CString>)
    ensures |r| == |l| && forall i :: 0 <= i < |l| ==> r[i] == name(l[i])
  {
    seq(|l|, i requires 0 <= i < |l| => name(l[i]))
  }

  ghost predicate IsFirst(names: seq<CString>, name: CString, i: nat) {
    i < |names| && names[i] == name && forall j :: 0 <= j < i ==> names[j] != name
  }

  lemma FirstIsUnique(names: seq<CString>, name: CString, i: nat)
    requires i < |names| && names[i] == name && forall a, b :: 0 <= a < b < |names| ==> names[a] != names[b]
    ensures forall j :: IsFirst(names, name, j) ==> j == i
  {
  }
}
