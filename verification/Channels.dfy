/** One database channel: its growable op array, kept in scoring order by DB_write_end, and its notes. */
module Channels {
  import opened CStrings
  import opened OpRecords
  import opened Notes

  const INITIAL_OPS := 8

  /** The value of a channel record (struct OCF_channel with what its pointers reach). */
  datatype Chan = Chan(
    name: CString, timestamp: nat, flag: nat, clientCount: nat, autoFix: seq<nat>, manualFix: seq<nat>,
    ops: seq<Op>, opMax: nat, notes: Slots, noteCount: nat)

  ghost predicate ValidChan(c: Chan) {
    WellFormed(c.ops) && Capacity(c.opMax) && |c.ops| <= c.opMax && c.noteCount == |NoteList(c.notes)|
  }

  ghost function NewChan(name: CString): Chan {
    Chan(name, 0, 0, 0, seq(10, _ => 0), seq(10, _ => 0), [], INITIAL_OPS, seq(MAXNOTECOUNT, _ => None), 0)
  }

  lemma NewChanValid(name: CString)
    ensures ValidChan(NewChan(name))
  {
    NoHoles(MAXNOTECOUNT);
  }

  /** The room a channel has after a registration. */
  ghost function Grown(c: Chan, k: Key): nat {
    if !HasKey(c.ops, k) && |c.ops| >= c.opMax && c.opMax < MAXOPCOUNT then 2 * c.opMax else c.opMax
  }

  ghost function RegisterChan(c: Chan, user: CString, host: CString, d: nat): Chan
    requires ValidChan(c) && d < DAYSAMPLES
  {
    c.(ops := Registered(c.ops, user, host, d), opMax := Grown(c, KeyOf(user, host)))
  }

  lemma RegisterChanValid(c: Chan, user: CString, host: CString, d: nat)
    requires ValidChan(c) && d < DAYSAMPLES
    ensures ValidChan(RegisterChan(c, user, host, d))
  {
    RegisteredWellFormed(c.ops, user, host, d);
  }

  ghost function SortChan(c: Chan): Chan {
    c.(ops := StableSort(c.ops))
  }

  lemma SortChanValid(c: Chan)
    requires ValidChan(c)
    ensures ValidChan(SortChan(c)) && Descending(SortChan(c).ops)
  {
    SortedWellFormed(c.ops);
    StableSortArranges(c.ops);
  }

  ghost function ClearChan(c: Chan, d: nat): Chan
    requires ValidChan(c) && d < DAYSAMPLES
  {
    c.(ops := Cleared(c.ops, d))
  }

  /** Halving the op array once it is at most a third full; an emptied channel keeps its array. */
  ghost function Shrunk(opMax: nat, count: nat): nat {
    if 0 < count <= opMax / 3 && opMax > INITIAL_OPS then opMax / 2 else opMax
  }

  /** The daily rollover of one channel onto slot d. */
  ghost function RollChan(c: Chan, d: nat): Chan
    requires ValidChan(c) && d < DAYSAMPLES
  {
    var ops := RolledOps(c.ops, d);
    c.(ops := ops, opMax := Shrunk(c.opMax, |ops|))
  }

  lemma RollChanValid(c: Chan, d: nat)
    requires ValidChan(c) && d < DAYSAMPLES
    ensures ValidChan(RollChan(c, d)) && Descending(RollChan(c, d).ops)
  {
    RolledWellFormed(c.ops, d);
  }

  // ---------------------------------------------------------------- the sort of DB_write_end

  lemma StableSortShort(s: seq<Op>)
    requires |s| <= 1
    ensures StableSort(s) == s
  {
    hide Score;
    if s != [] {
      assert s[..0] == [];
      assert StableSort(s[..0]) == [] && Insert([], s[0]) == [] + [s[0]];
    }
  }

  /** Every score of the parallel array is that of the record beside it. */
  ghost predicate InStep(scores: seq<nat>, ops: seq<Op>) {
    |ops| <= |scores| && forall j :: 0 <= j < |ops| ==> scores[j] == Score(ops[j])
  }

  method ScoreAll(a: array<Op>, n: nat, sortscores: array<nat>)
    requires n <= a.Length && n <= sortscores.Length
    modifies sortscores
    ensures InStep(sortscores[..], a[..n])
  {
    for i := 0 to n
      invariant forall j :: 0 <= j < i ==> sortscores[j] == Score(a[j])
    {
      sortscores[i] := ScoreOf(a[i]);
    }
  }

  /** DB_write_end: an insertion sort that moves op records and the parallel score array together. */
  method SortOps(a: array<Op>, n: nat)
    requires n <= a.Length && n <= MAXOPCOUNT
    modifies a
    ensures a[..n] == StableSort(old(a[..n]))
    ensures a[n..] == old(a[n..])
  {
    ghost var was := a[..];
    var sortscores := new nat[MAXOPCOUNT];
    ScoreAll(a, n, sortscores);
    if n == 0 { return; }
    StableSortShort(was[..1]);
    var i := 1;
    while i < n
      invariant 1 <= i <= n
      invariant a[..i] == StableSort(was[..i])
      invariant a[i..] == was[i..]
      invariant InStep(sortscores[..], a[..n])
    {
      SortStep(a, n, i, sortscores, was);
      i := i + 1;
    }
  }

  method SortStep(a: array<Op>, n: nat, i: nat, sortscores: array<nat>, ghost was: seq<Op>)
    requires 1 <= i < n <= a.Length == |was| && (a as object) != sortscores
    requires a[..i] == StableSort(was[..i]) && a[i..] == was[i..]
    requires InStep(sortscores[..], a[..n])
    modifies a, sortscores
    ensures a[..i + 1] == StableSort(was[..i + 1]) && a[i + 1..] == was[i + 1..]
    ensures InStep(sortscores[..], a[..n])
  {
    hide Insert, StableSort, Score;
    ghost var mid, ss := a[..], sortscores[..];
    SortPrefix(was, i);
    TailStep(mid, was, i);
    assert forall j :: 0 <= j < n ==> a[..n][j] == mid[j];
    if sortscores[i - 1] < sortscores[i] {
      var k := FindSlot(sortscores, i);
      ShiftDown(a, sortscores, k, i);
      MovedInsert(mid, a[..], k, i);
      MovedInStep(mid, ss, a[..], sortscores[..], n, k, i);
    } else {
      InsertAt(mid[..i], mid[i], i);
      assert a[..i + 1] == mid[..i] + [mid[i]];
    }
  }

  lemma TailStep(mid: seq<Op>, was: seq<Op>, i: nat)
    requires i < |mid| == |was| && mid[i..] == was[i..]
    ensures mid[i] == was[i] && mid[i + 1..] == was[i + 1..]
  {
    assert mid[i] == mid[i..][0] && was[i] == was[i..][0];
    assert mid[i + 1..] == mid[i..][1..] && was[i + 1..] == was[i..][1..];
  }

  lemma MovedInsert(mid: seq<Op>, r: seq<Op>, k: nat, i: nat)
    requires MovedDown(mid, r, k, i)
    requires k > 0 ==> Score(mid[k - 1]) >= Score(mid[i])
    requires forall j :: k <= j < i ==> Score(mid[j]) < Score(mid[i])
    ensures r[..i + 1] == Insert(mid[..i], mid[i]) && r[i + 1..] == mid[i + 1..]
  {
    InsertAt(mid[..i], mid[i], k);
    Rotated(mid, r, k, i);
  }

  lemma MovedInStep(mid: seq<Op>, ss: seq<nat>, r: seq<Op>, rs: seq<nat>, n: nat, k: nat, i: nat)
    requires i < n <= |mid| && InStep(ss, mid[..n])
    requires MovedDown(mid, r, k, i) && MovedDown(ss, rs, k, i)
    ensures InStep(rs, r[..n])
  {
    assert forall j :: 0 <= j < n ==> mid[..n][j] == mid[j] && ss[j] == Score(mid[j]);
  }

  lemma SortPrefix(was: seq<Op>, i: nat)
    requires i < |was|
    ensures StableSort(was[..i + 1]) == Insert(StableSort(was[..i]), was[i])
    ensures Descending(StableSort(was[..i]))
  {
    assert was[..i + 1][..i] == was[..i];
    StableSortArranges(was[..i]);
  }

  /** Scans back for the last score that is not beaten. */
  method FindSlot(sortscores: array<nat>, i: nat) returns (k: nat)
    requires 1 <= i < sortscores.Length && sortscores[i - 1] < sortscores[i]
    ensures k < i && (k > 0 ==> sortscores[k - 1] >= sortscores[i])
    ensures forall j :: k <= j < i ==> sortscores[j] < sortscores[i]
  {
    var m := i - 2;
    while m >= 0 && sortscores[m] < sortscores[i]
      invariant -1 <= m <= i - 2
      invariant forall j :: m < j < i ==> sortscores[j] < sortscores[i]
    {
      m := m - 1;
    }
    k := m + 1;
  }

  /** r is s with the element at i moved down to k. */
  ghost predicate MovedDown<T(!new)>(s: seq<T>, r: seq<T>, k: nat, i: nat) {
    k <= i < |s| == |r|
    && (forall m :: 0 <= m < k || i < m < |s| ==> r[m] == s[m])
    && (forall m :: k < m <= i ==> r[m] == s[m - 1])
    && r[k] == s[i]
  }

  lemma Rotated<T(!new)>(s: seq<T>, r: seq<T>, k: nat, i: nat)
    requires MovedDown(s, r, k, i)
    ensures r[..i + 1] == s[..i][..k] + [s[i]] + s[..i][k..]
    ensures r[i + 1..] == s[i + 1..]
  {
  }

  /** Rotates record i and its score down to index k. */
  method ShiftDown(a: array<Op>, sortscores: array<nat>, k: nat, i: nat)
    requires k <= i < a.Length && i < sortscores.Length && (a as object) != sortscores
    modifies a, sortscores
    ensures MovedDown(old(a[..]), a[..], k, i)
    ensures MovedDown(old(sortscores[..]), sortscores[..], k, i)
  {
    ghost var s, t := a[..], sortscores[..];
    var sorttemp, sortscore := a[i], sortscores[i];
    var j := i;
    while j > k
      invariant k <= j <= i
      invariant forall m :: 0 <= m < j || i < m < a.Length ==> a[m] == s[m]
      invariant forall m :: j < m <= i ==> a[m] == s[m - 1]
      invariant forall m :: 0 <= m < j || i < m < sortscores.Length ==> sortscores[m] == t[m]
      invariant forall m :: j < m <= i ==> sortscores[m] == t[m - 1]
    {
      a[j] := a[j - 1];
      sortscores[j] := sortscores[j - 1];
      j := j - 1;
    }
    a[k] := sorttemp;
    sortscores[k] := sortscore;
  }

  // ---------------------------------------------------------------- helpers over one op array

  /** A buffer of another size holding the first n records. */
  method Reallocated(a: array<Op>, n: nat, size: nat) returns (tc: array<Op>)
    requires n <= a.Length && n <= size
    ensures fresh(tc) && tc.Length == size && tc[..n] == a[..n]
  {
    tc := new Op[size];
    for j := 0 to n
      invariant tc[..j] == a[..j]
    {
      tc[j] := a[j];
    }
  }

  /** Looks for a day with a point, stopping at the first. */
  method HasPoints(o: Op) returns (found: bool)
    requires |o.days| == DAYSAMPLES
    ensures found <==> Score(o) > 0
  {
    var so, s := 0, 0;
    while s < DAYSAMPLES && so == 0
      invariant 0 <= s <= DAYSAMPLES && so >= 0
      invariant so == 0 ==> forall m :: 0 <= m < s ==> o.days[m] == 0
      invariant so > 0 ==> exists m :: 0 <= m < s && o.days[m] == so
    {
      so := o.days[s];
      s := s + 1;
    }
    SumZero(o.days);
    found := so != 0;
  }

  method FirstNonScorer(a: array<Op>, n: nat) returns (k: nat)
    requires n <= a.Length && forall j :: 0 <= j < n ==> |a[j].days| == DAYSAMPLES
    ensures k <= n && (forall j :: 0 <= j < k ==> Score(a[j]) > 0)
    ensures k < n ==> Score(a[k]) == 0
  {
    k := 0;
    while k < n
      invariant 0 <= k <= n
      invariant forall j :: 0 <= j < k ==> Score(a[j]) > 0
    {
      var found := HasPoints(a[k]);
      if !found { return; }
      k := k + 1;
    }
  }

  ghost function AddNoteChan(c: Chan, n: Note): Chan {
    var slots := Pushed(c.notes, FirstGap(c.notes), Fitted(n));
    c.(notes := slots, noteCount := |NoteList(slots)|)
  }

  ghost function DelNoteChan(c: Chan, count: int): Chan {
    var slots := Deleted(c.notes, count);
    c.(notes := slots, noteCount := |NoteList(slots)|)
  }

  // ---------------------------------------------------------------- helpers over one note array

  /** CN_channel_note_count. */
  method CountNotes(a: array<Option<Note>>) returns (count: nat)
    requires a.Length == MAXNOTECOUNT
    ensures count == |NoteList(a[..])|
  {
    count := 0;
    for i := 0 to MAXNOTECOUNT
      invariant count == |NoteList(a[..i])|
    {
      NoteListStep(a[..], i);
      if a[i].Some? { count := count + 1; }
    }
    assert a[..MAXNOTECOUNT] == a[..];
  }

  lemma NoteListStep(s: Slots, i: nat)
    requires i < MAXNOTECOUNT
    ensures NoteList(s[..i + 1]) == NoteList(s[..i]) + (if s[i].Some? then [s[i].value] else [])
  {
    assert s[..i + 1] == s[..i] + [s[i]];
    NoteListAppend(s[..i], [s[i]]);
  }

  /** The slot to backshift to: the first hole, or the last slot when all are taken. */
  method FirstHole(a: array<Option<Note>>) returns (s: nat)
    requires a.Length == MAXNOTECOUNT
    ensures s == FirstGap(a[..])
  {
    s := MAXNOTECOUNT - 1;
    for i := 0 to MAXNOTECOUNT
      invariant s == MAXNOTECOUNT - 1
      invariant forall j :: 0 <= j < i ==> a[j].Some?
    {
      if a[i].None? {
        s := i;
        break;
      }
    }
    assert Gap(a[..], s);
  }

  method PushNote(a: array<Option<Note>>, s: nat, note: Note)
    requires a.Length == MAXNOTECOUNT && s < MAXNOTECOUNT
    modifies a
    ensures a[..] == Pushed(old(a[..]), s, note)
  {
    ghost var was := a[..];
    var i := s;
    while i > 0
      invariant 0 <= i <= s
      invariant forall j :: 0 <= j < i || s < j < MAXNOTECOUNT ==> a[j] == was[j]
      invariant forall j :: i < j <= s ==> a[j] == was[j - 1]
    {
      a[i] := a[i - 1];
      i := i - 1;
    }
    a[0] := Some(note);
  }

  /** Walks to the count-th filled slot; MAXNOTECOUNT when there is none. */
  method FindNote(a: array<Option<Note>>, count: int) returns (i: nat)
    requires a.Length == MAXNOTECOUNT && count >= 1
    ensures i <= MAXNOTECOUNT
    ensures i < MAXNOTECOUNT ==> Holds(a[..], i, count)
    ensures i == MAXNOTECOUNT ==> !HasNote(a[..], count)
  {
    var left := count;
    i := 0;
    while i < MAXNOTECOUNT
      invariant 0 <= i <= MAXNOTECOUNT && left >= 1
      invariant left == count - |NoteList(a[..i])|
    {
      NoteListStep(a[..], i);
      if a[i].Some? {
        left := left - 1;
        if left == 0 { return; }
      }
      i := i + 1;
    }
    assert a[..MAXNOTECOUNT] == a[..];
    DeletedList(a[..], count);
  }

  lemma PositiveWellFormed(s: seq<Op>)
    requires WellFormed(s)
    ensures WellFormed(Positive(s)) && |Positive(s)| <= |s|
  {
    PositivePart(s);
    PositiveMembers(s);
    WellFormedPart(s, Positive(s));
  }

  /** Linear search for the record of user@host; n when there is none. */
  method FindOp(a: array<Op>, n: nat, user: CString, host: CString) returns (o: nat)
    requires n <= a.Length
    ensures o <= n && (o < n ==> OpKey(a[o]) == KeyOf(user, host))
    ensures o == n ==> !HasKey(a[..n], KeyOf(user, host))
  {
    o := 0;
    while o < n && KeyOf(a[o].user, a[o].host) != KeyOf(user, host)
      invariant 0 <= o <= n
      invariant forall j :: 0 <= j < o ==> OpKey(a[j]) != KeyOf(user, host)
    {
      o := o + 1;
    }
  }

  lemma IndexUnique(s: seq<Op>, o: nat)
    requires WellFormed(s) && o < |s|
    ensures HasKey(s, OpKey(s[o])) && IndexOf(s, OpKey(s[o])) == o && |s[o].days| == DAYSAMPLES
  {
  }

  class Channel {
    const name: CString
    var timestamp: nat
    var flag: nat
    var clientCount: nat
    var autoFix: seq<nat>
    var manualFix: seq<nat>
    var chanop: array<Op>
    var opCount: nat
    var channote: array<Option<Note>>
    var noteCount: nat

    ghost predicate Valid()
      reads this, chanop, channote
    {
      && opCount <= chanop.Length && channote.Length == MAXNOTECOUNT
      && (chanop as object) != channote
      && ValidChan(View())
    }

    ghost function View(): Chan
      requires opCount <= chanop.Length && channote.Length == MAXNOTECOUNT
      reads this, chanop, channote
    {
      Chan(name, timestamp, flag, clientCount, autoFix, manualFix,
           chanop[..opCount], chanop.Length, channote[..], noteCount)
    }

    constructor (name: CString)
      ensures Valid() && fresh(chanop) && fresh(channote)
      ensures View() == NewChan(name)
    {
      this.name := name;
      timestamp, flag, clientCount := 0, 0, 0;
      autoFix, manualFix := seq(10, _ => 0), seq(10, _ => 0);
      chanop := new Op[INITIAL_OPS];
      opCount := 0;
      channote := new Option<Note>[MAXNOTECOUNT](_ => None);
      noteCount := 0;
      new;
      hide ValidChan, Capacity, NoteList, WellFormed;
      NewChanValid(name);
      assert channote[..] == NewChan(name).notes && chanop[..0] == NewChan(name).ops;
    }

    /** DB_write_end on this channel: its op records are left in scoring order. */
    method WriteEnd()
      requires Valid()
      modifies chanop
      ensures Valid() && View() == SortChan(old(View()))
    {
      SortChanValid(View());
      SortOps(chanop, opCount);
    }

    /** CE_register_op: one point for user@host in slot d, growing the op array when it is full. */
    method RegisterOp(user: CString, host: CString, d: nat)
      requires Valid() && d < DAYSAMPLES
      modifies this`chanop, this`opCount, chanop
      ensures Valid() && View() == RegisterChan(old(View()), user, host, d)
      ensures chanop == old(chanop) || fresh(chanop)
    {
      hide NoteList, WellFormed, OpKey, KeyOf;
      ghost var was := chanop[..opCount];
      RegisterChanValid(View(), user, host, d);
      var o := FindOp(chanop, opCount, user, host);
      if o == opCount {
        if opCount >= chanop.Length {
          if chanop.Length >= MAXOPCOUNT {
            return;
          }
          chanop := Reallocated(chanop, opCount, chanop.Length * 2);
        }
        opCount := opCount + 1;
        chanop[o] := Op(user, host, seq(DAYSAMPLES, _ => 0));
        chanop[o] := Bump(chanop[o], d);
        assert chanop[..opCount] == was + [Bump(Op(user, host, Zeros()), d)];
      } else {
        IndexUnique(was, o);
        chanop[o] := Bump(chanop[o], d);
        assert chanop[..opCount] == was[o := Bump(was[o], d)];
      }
    }

    /** Nulls the counter of the new day for every op (first loop of CE_update_day). */
    method ClearDay(d: nat)
      requires Valid() && d < DAYSAMPLES
      modifies chanop
      ensures Valid() && View() == ClearChan(old(View()), d)
    {
      ghost var was := chanop[..opCount];
      for k := 0 to opCount
        invariant forall j :: 0 <= j < k ==> chanop[j] == ClearSlot(was[j], d)
        invariant forall j :: k <= j < opCount ==> chanop[j] == was[j]
      {
        chanop[k] := chanop[k].(days := chanop[k].days[d := 0]);
      }
      assert chanop[..opCount] == Cleared(was, d);
    }

    /** Drops the op records from the first one that scores nothing. */
    method CutNonScorers()
      requires Valid() && Descending(View().ops)
      modifies this`opCount
      ensures Valid() && View() == old(View()).(ops := Positive(old(View()).ops))
    {
      hide NoteList, Score, Positive;
      ghost var was := chanop[..opCount];
      PositiveWellFormed(was);
      opCount := FirstNonScorer(chanop, opCount);
      assert forall j :: 0 <= j < |was| ==> was[j] == chanop[j];
      CutIsFilter(was, opCount);
      assert chanop[..opCount] == was[..opCount];
    }

    /** Gives back half of an op array that is at most a third full. */
    method Shrink()
      requires Valid() && opCount > 0
      modifies this`chanop
      ensures Valid() && View() == old(View()).(opMax := Shrunk(old(View()).opMax, opCount))
      ensures chanop == old(chanop) || fresh(chanop)
    {
      if opCount <= chanop.Length / 3 && chanop.Length > INITIAL_OPS {
        chanop := Reallocated(chanop, opCount, chanop.Length / 2);
      }
    }

    /** DB_channel_add_note: shifts the notes up to the first hole and puts the new one in front. */
    method AddNote(note: Note) returns (count: nat)
      requires Valid()
      modifies channote, this`noteCount
      ensures Valid() && View() == AddNoteChan(old(View()), note)
      ensures count == noteCount
    {
      ghost var was := channote[..];
      var s := FirstHole(channote);
      PushNote(channote, s, Fitted(note));
      noteCount := CountNotes(channote);
      count := noteCount;
    }

    /** DB_channel_del_note: empties the slot of note number count; 1 on success. */
    method DelNote(count: int) returns (ok: bool)
      requires Valid()
      modifies channote, this`noteCount
      ensures Valid() && View() == DelNoteChan(old(View()), count)
      ensures ok <==> 1 <= count <= |NoteList(old(View()).notes)|
    {
      ghost var was := channote[..];
      DeletedList(was, count);
      if count <= 0 || count > MAXNOTECOUNT { return false; }
      var i := FindNote(channote, count);
      ok := i < MAXNOTECOUNT;
      if ok {
        HoldsUnique(was, i, SlotOf(was, count), count);
        channote[i] := None;
      }
      assert channote[..] == Deleted(was, count);
      noteCount := CountNotes(channote);
    }

    /** DB_channel_get_note: note number count of the list. */
    method GetNote(count: int) returns (r: Option<Note>)
      requires Valid()
      ensures r == if 1 <= count <= |NoteList(View().notes)| then Some(NoteList(View().notes)[count - 1]) else None
    {
      DeletedList(channote[..], count);
      if count <= 0 || count > MAXNOTECOUNT { return None; }
      var i := FindNote(channote, count);
      if i < MAXNOTECOUNT {
        HoldsNote(channote[..], i, count);
        return channote[i];
      }
      return None;
    }
  }
}
