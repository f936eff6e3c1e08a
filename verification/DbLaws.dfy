/** What the events of the database do to one channel, in plain terms: who stays, and with which flag and notes. */
module DbLaws {
  import opened CStrings
  import opened OpRecords
  import opened Notes
  import opened Channels
  import opened ChannelIndex
  import opened DbModel

  // ---------------------------------------------------------------- the rollover

  /** The record has points on another day than that of slot d. */
  ghost predicate CountsElsewhere(o: Op, d: nat) {
    exists s :: 0 <= s < |o.days| && s != d && o.days[s] != 0
  }

  ghost predicate HasNoteSlot(notes: seq<Option<Note>>) {
    exists i :: 0 <= i < |notes| && notes[i].Some?
  }

  ghost predicate HasOtherDay(c: Chan, d: nat) {
    exists i :: 0 <= i < |c.ops| && CountsElsewhere(c.ops[i], d)
  }

  lemma {:induction false} NoteListEmpty(s: seq<Option<Note>>)
    ensures NoteList(s) == [] <==> forall i :: 0 <= i < |s| ==> s[i].None?
  {
    if s != [] {
      NoteListEmpty(s[1..]);
      assert forall i :: 0 <= i < |s| - 1 ==> s[1..][i] == s[i + 1];
      assert s[0].None? ==> forall i :: 0 < i < |s| ==> s[i] == s[1..][i - 1];
    }
  }

  /** What is left of a record of the list. */
  ghost predicate LeftOf(ops: seq<Op>, d: nat, o: Op) {
    exists i :: 0 <= i < |ops| && |ops[i].days| > d && CountsElsewhere(ops[i], d)
                && o == Op(ops[i].user, ops[i].host, ops[i].days[d := 0])
  }

  lemma ClearedScores(o: Op, d: nat)
    requires d < |o.days|
    ensures Score(ClearSlot(o, d)) > 0 <==> CountsElsewhere(o, d)
    ensures ClearSlot(o, d) == Op(o.user, o.host, o.days[d := 0])
  {
    var days := ClearSlot(o, d).days;
    SumZero(days);
    assert days == o.days[d := 0];
    forall s | 0 <= s < |days| ensures days[s] == if s == d then 0 else o.days[s] {}
    if CountsElsewhere(o, d) {
      var s :| 0 <= s < |o.days| && s != d && o.days[s] != 0;
      assert days[s] != 0;
    }
  }

  /** The records that are left: those with points on other days, the new day's counter nulled. */
  lemma RolledRecords(ops: seq<Op>, d: nat, o: Op)
    requires WellFormed(ops) && d < DAYSAMPLES
    ensures o in RolledOps(ops, d) <==> LeftOf(ops, d, o)
  {
    RolledWellFormed(ops, d);
    var c := Cleared(ops, d);
    hide RolledOps, Score, ClearSlot;
    forall i | 0 <= i < |ops|
      ensures Score(c[i]) > 0 <==> CountsElsewhere(ops[i], d)
      ensures c[i] == Op(ops[i].user, ops[i].host, ops[i].days[d := 0])
    {
      ClearedScores(ops[i], d);
    }
    hide CountsElsewhere;
    if o in RolledOps(ops, d) {
      var i :| 0 <= i < |c| && c[i] == o;
      assert CountsElsewhere(ops[i], d);
    }
    if LeftOf(ops, d, o) {
      var i :| 0 <= i < |ops| && CountsElsewhere(ops[i], d) && o == Op(ops[i].user, ops[i].host, ops[i].days[d := 0]);
      assert c[i] in c;
    }
  }

  lemma RolledEmpty(ops: seq<Op>, d: nat)
    requires WellFormed(ops) && d < DAYSAMPLES
    ensures RolledOps(ops, d) == [] <==> forall i :: 0 <= i < |ops| ==> !CountsElsewhere(ops[i], d)
  {
    hide RolledOps, CountsElsewhere;
    var r := RolledOps(ops, d);
    if r != [] { RolledRecords(ops, d, r[0]); }
    forall i | 0 <= i < |ops| ensures CountsElsewhere(ops[i], d) ==> r != [] {
      RolledRecords(ops, d, Op(ops[i].user, ops[i].host, ops[i].days[d := 0]));
    }
  }

  /** One channel before and after its rollover onto slot d. */
  ghost predicate RolledTo(c: Chan, d: nat, r: Chan) {
    && r.name == c.name && r.flag == c.flag && r.notes == c.notes && r.noteCount == c.noteCount
    && r.timestamp == c.timestamp && r.clientCount == c.clientCount && r.autoFix == c.autoFix && r.manualFix == c.manualFix
    && (forall o :: o in r.ops <==> LeftOf(c.ops, d, o))
    && r.opMax == (if r.ops != [] && 3 * |r.ops| <= c.opMax && c.opMax >= 16 then c.opMax / 2 else c.opMax)
  }

  lemma RollChanTo(c: Chan, d: nat)
    requires ValidChan(c) && d < DAYSAMPLES
    ensures RolledTo(c, d, RollChan(c, d))
    ensures Keeps(RollChan(c, d)) <==> c.flag != 0 || HasNoteSlot(c.notes) || HasOtherDay(c, d)
  {
    hide RolledOps, LeftOf, WellFormed, CountsElsewhere;
    forall o ensures o in RollChan(c, d).ops <==> LeftOf(c.ops, d, o) { RolledRecords(c.ops, d, o); }
    RolledEmpty(c.ops, d);
    NoteListEmpty(c.notes);
  }

  /** Closing a channel changes the order of its records and nothing else. */
  lemma ClosedChannel(db: Db, id: CString)
    requires Sane(db) && id in db.chans
    ensures Sane(Closed(db)) && Closed(db).chans.Keys == db.chans.Keys
    ensures var c, q := db.chans[id], Closed(db).chans[id];
            q == c.(ops := q.ops) && forall o :: o in q.ops <==> o in c.ops
  {
    hide StableSort, WellFormed, Descending, Id;
    ClosedSane(db);
    if db.write == Some(id) {
      assert ValidChan(db.chans[id]);
      SortedWellFormed(db.chans[id].ops);
    }
  }

  lemma SameRecordsLeft(a: seq<Op>, b: seq<Op>, d: nat, o: Op)
    requires forall p :: p in a <==> p in b
    ensures LeftOf(a, d, o) ==> LeftOf(b, d, o)
  {
    hide CountsElsewhere;
    if LeftOf(a, d, o) {
      var i :| 0 <= i < |a| && |a[i].days| > d && CountsElsewhere(a[i], d) && o == Op(a[i].user, a[i].host, a[i].days[d := 0]);
      assert a[i] in a;
      var j :| 0 <= j < |b| && b[j] == a[i];
    }
  }

  lemma SameRecordsCount(a: Chan, b: Chan, d: nat)
    requires forall p :: p in a.ops <==> p in b.ops
    ensures HasOtherDay(a, d) ==> HasOtherDay(b, d)
  {
    hide CountsElsewhere;
    if HasOtherDay(a, d) {
      var i :| 0 <= i < |a.ops| && CountsElsewhere(a.ops[i], d);
      assert a.ops[i] in a.ops;
      var j :| 0 <= j < |b.ops| && b.ops[j] == a.ops[i];
    }
  }

  /**
   * A new day: a channel stays if and only if it has a flag, a note or a record with points on another day than
   * the one whose counters are nulled. It keeps all but those counters and the records that have no others.
   */
  lemma RolloverExact(db: Db, stamp: nat, id: CString)
    requires Sane(db) && id in db.chans
    ensures var r, c, d := Step(db, UpdateDay(stamp)).chans, db.chans[id], stamp % 14;
            && (id in r <==> c.flag != 0 || HasNoteSlot(c.notes) || HasOtherDay(c, d))
            && (id in r ==> RolledTo(c, d, r[id]))
  {
    hide Closed, Step, Sane, RollChan, Keeps, RolledTo, HasOtherDay, HasNoteSlot, ValidChan, RolloverMap, ValidMap;
    var d := stamp % DAYSAMPLES;
    ClosedChannel(db, id);
    StepRolls(db, stamp);
    EntryRolled(Closed(db).chans, d, id);
    SameRolledTo(db.chans[id], Closed(db).chans[id], d, RollChan(Closed(db).chans[id], d));
  }

  lemma EntryRolled(m: map<CString, Chan>, d: nat, id: CString)
    requires ValidMap(m) && d < DAYSAMPLES && id in m
    ensures var c := m[id];
            && ValidChan(c) && RolledTo(c, d, RollChan(c, d))
            && (id in RolloverMap(m, d) <==> c.flag != 0 || HasNoteSlot(c.notes) || HasOtherDay(c, d))
            && (id in RolloverMap(m, d) ==> RolloverMap(m, d)[id] == RollChan(c, d))
  {
    hide ValidChan, RolledTo, HasOtherDay, HasNoteSlot, RollChan, Keeps;
    RollChanTo(m[id], d);
  }

  lemma SameRolledTo(c: Chan, q: Chan, d: nat, r: Chan)
    requires q == c.(ops := q.ops) && (forall o :: o in q.ops <==> o in c.ops) && RolledTo(q, d, r)
    ensures RolledTo(c, d, r) && HasNoteSlot(c.notes) == HasNoteSlot(q.notes) && HasOtherDay(c, d) == HasOtherDay(q, d)
  {
    hide LeftOf, HasOtherDay;
    SameRecordsCount(c, q, d);
    SameRecordsCount(q, c, d);
    forall o ensures LeftOf(q.ops, d, o) <==> LeftOf(c.ops, d, o) {
      SameRecordsLeft(q.ops, c.ops, d, o);
      SameRecordsLeft(c.ops, q.ops, d, o);
    }
  }

  /** A new day brings no channel back. */
  lemma RolloverAddsNone(db: Db, stamp: nat)
    requires Sane(db)
    ensures Step(db, UpdateDay(stamp)).chans.Keys <= db.chans.Keys
  {
    StepRolls(db, stamp);
    ClosedKeys(db);
    hide Step, Closed, Sane;
  }

  lemma ClosedKeys(db: Db)
    requires Sane(db)
    ensures Closed(db).chans.Keys == db.chans.Keys
  {
    hide ValidMap, Id;
  }

  // ---------------------------------------------------------------- the other events

  /** The new note in front, as far as it fits, and at most seven old ones behind it. */
  ghost predicate NoteAdded(was: seq<Note>, note: Note, r: seq<Note>) {
    && r != [] && r[0].id == note.id && r[0].timestamp == note.timestamp
    && r[0].text == (if |note.text| > 550 then note.text[..550] else note.text)
    && r[1..] == (if |was| > 7 then was[..7] else was)
  }

  lemma AddedNote(c: Chan, note: Note)
    ensures var r := AddNoteChan(c, note); r == c.(notes := r.notes, noteCount := r.noteCount)
    ensures NoteAdded(NoteList(c.notes), note, NoteList(AddNoteChan(c, note).notes))
  {
    hide NoteList, Pushed;
    PushedList(c.notes, FirstGap(c.notes), Fitted(note));
  }

  lemma DroppedNote(c: Chan, number: int)
    ensures var r := DelNoteChan(c, number); r == c.(notes := r.notes, noteCount := r.noteCount)
    ensures var l, r := NoteList(c.notes), NoteList(DelNoteChan(c, number).notes);
            r == if 1 <= number <= |l| then l[..number - 1] + l[number..] else l
  {
    DeletedList(c.notes, number);
  }

  /** A registration: the room doubles when there is one record too many for it. */
  ghost predicate RoomFits(c: Chan, r: Chan) {
    r.opMax == if |r.ops| > c.opMax then 2 * c.opMax else c.opMax
  }

  lemma RegisteredKeeps(c: Chan, user: CString, host: CString, d: nat)
    requires ValidChan(c) && d < DAYSAMPLES
    ensures var r := RegisterChan(c, user, host, d); r == c.(ops := r.ops, opMax := r.opMax) && RoomFits(c, r)
  {
    hide HasKey, WellFormed;
  }

  /** What an event may change of a channel; id is its folded name. */
  ghost predicate ChannelAfter(db: Db, e: Event, id: CString, c: Chan, r: Chan) {
    var here := db.write == Some(id);
    && r.name == c.name && r.timestamp == c.timestamp && r.clientCount == c.clientCount
    && r.autoFix == c.autoFix && r.manualFix == c.manualFix
    && r.flag == (if here && e.SetFlag? then e.flag else c.flag)
    && (if here && e.AddNote? then NoteAdded(NoteList(c.notes), e.note, NoteList(r.notes))
        else if here && e.DelNote? then
          var l := NoteList(c.notes);
          NoteList(r.notes) == if 1 <= e.number <= |l| then l[..e.number - 1] + l[e.number..] else l
        else r.notes == c.notes)
    && (if here && e.RegisterOp? && |e.user| < 40 && |e.host| < 63 then RoomFits(c, r)
        else forall o :: o in r.ops <==> o in c.ops)
  }

  /** Every event but a new day keeps every channel, and changes of it only what it is for. */
  lemma EventExact(db: Db, e: Event, id: CString)
    requires Sane(db) && id in db.chans && !e.UpdateDay?
    ensures id in Step(db, e).chans && ChannelAfter(db, e, id, db.chans[id], Step(db, e).chans[id])
  {
    hide Step, Closed, Opened, Sane, NoteAdded, RoomFits;
    if e.SetWrite? {
      ClosedChannel(db, id);
      StepOpens(db, e.name);
      OpenedKeeps(Closed(db), id);
    } else {
      WrittenExact(db, e, id);
    }
  }

  lemma OpenedKeeps(db: Db, id: CString)
    requires id in db.chans
    ensures forall name :: id in Opened(db, name).chans && Opened(db, name).chans[id] == db.chans[id]
  {
    hide IrcFold, NewChan;
  }

  lemma WrittenExact(db: Db, e: Event, id: CString)
    requires Sane(db) && id in db.chans && !e.UpdateDay? && !e.SetWrite?
    ensures id in Step(db, e).chans && ChannelAfter(db, e, id, db.chans[id], Step(db, e).chans[id])
  {
    hide NoteAdded, RoomFits, RegisterChan, AddNoteChan, DelNoteChan, NoteList, ValidChan, Id;
    var c := db.chans[id];
    assert ValidChan(c) && db.day < DAYSAMPLES;
    if db.write == Some(id) {
      match e
      case RegisterOp(user, host) => RegisteredKeeps(c, user, host, db.day);
      case AddNote(note) => AddedNote(c, note);
      case DelNote(number) => DroppedNote(c, number);
      case _ =>
    }
  }

  /** Opening a channel that is not there makes an empty one of the given name, with room for eight records. */
  lemma NewExact(db: Db, name: CString)
    requires Sane(db) && |name| < 51 && IrcFold(name) !in db.chans
    ensures var id, r := IrcFold(name), Step(db, SetWrite(Some(name)));
            && r.write == Some(id) && id in r.chans
            && var c := r.chans[id];
               && c.name == name && c.ops == [] && c.opMax == 8 && c.flag == 0 && c.timestamp == 0 && c.clientCount == 0
               && c.noteCount == 0 && forall i :: 0 <= i < |c.notes| ==> c.notes[i].None?
  {
    StepOpens(db, Some(name));
    ClosedKeys(db);
    hide Step, Closed, Sane, IrcFold;
  }

  // ---------------------------------------------------------------- every run

  /** Event k of fs, after es, sets the flag of the channel. */
  ghost predicate FlagsAt(stamp: nat, es: seq<Event>, fs: seq<Event>, id: CString, k: nat) {
    k < |fs| && fs[k].SetFlag? && Run(stamp, es + fs[..k]).write == Some(id)
  }

  ghost predicate NotesAt(stamp: nat, es: seq<Event>, fs: seq<Event>, id: CString, k: nat) {
    k < |fs| && (fs[k].AddNote? || fs[k].DelNote?) && Run(stamp, es + fs[..k]).write == Some(id)
  }

  /** One event leaves a channel with a flag, or notes, alone unless it is for them. */
  lemma MarkStays(db: Db, e: Event, id: CString)
    requires Sane(db) && id in db.chans
    ensures db.chans[id].flag != 0 && !(e.SetFlag? && db.write == Some(id)) ==>
              id in Step(db, e).chans && Step(db, e).chans[id].flag == db.chans[id].flag
    ensures HasNoteSlot(db.chans[id].notes) && !((e.AddNote? || e.DelNote?) && db.write == Some(id)) ==>
              id in Step(db, e).chans && Step(db, e).chans[id].notes == db.chans[id].notes
  {
    hide Step, Sane, NoteAdded, RoomFits, HasNoteSlot, HasOtherDay, LeftOf;
    if e.UpdateDay? { RolloverExact(db, e.stamp, id); } else { EventExact(db, e, id); }
  }

  lemma FlagEarlier(stamp: nat, es: seq<Event>, p: seq<Event>, e: Event, id: CString)
    requires forall k: nat :: !FlagsAt(stamp, es, p + [e], id, k)
    ensures forall k: nat :: !FlagsAt(stamp, es, p, id, k)
    ensures !FlagsAt(stamp, es, p + [e], id, |p|) && (p + [e])[|p|] == e && es + (p + [e])[..|p|] == es + p
  {
    hide Run;
    forall k: nat | k < |p| ensures !FlagsAt(stamp, es, p, id, k) {
      assert (p + [e])[..k] == p[..k];
      assert !FlagsAt(stamp, es, p + [e], id, k);
    }
    assert (p + [e])[..|p|] == p;
  }

  /** A channel with a flag stays, with that flag, through any run that does not set it again. */
  lemma {:induction false} FlagStays(stamp: nat, es: seq<Event>, fs: seq<Event>, id: CString)
    requires id in Run(stamp, es).chans && Run(stamp, es).chans[id].flag != 0
    requires forall k: nat :: !FlagsAt(stamp, es, fs, id, k)
    ensures id in Run(stamp, es + fs).chans && Run(stamp, es + fs).chans[id].flag == Run(stamp, es).chans[id].flag
    decreases |fs|
  {
    hide Run, Step, Sane, HasNoteSlot;
    if fs == [] {
      assert es + fs == es;
    } else {
      var n := |fs| - 1;
      var p, e := fs[..n], fs[n];
      assert fs == p + [e] && es + fs == es + p + [e];
      FlagEarlier(stamp, es, p, e, id);
      FlagStays(stamp, es, p, id);
      RunSnoc(stamp, es + p, e);
      MarkStays(Run(stamp, es + p), e, id);
    }
  }

  /** The flag given to the open channel. */
  lemma FlagGiven(stamp: nat, es: seq<Event>, flag: nat, fs: seq<Event>, id: CString)
    requires Run(stamp, es).write == Some(id) && flag != 0
    requires forall k: nat :: !FlagsAt(stamp, es + [SetFlag(flag)], fs, id, k)
    ensures var r := Run(stamp, es + [SetFlag(flag)] + fs).chans; id in r && r[id].flag == flag
  {
    var db := Run(stamp, es);
    RunSnoc(stamp, es, SetFlag(flag));
    assert id in db.chans;
    hide Run, Step, Sane, ChannelAfter, FlagsAt;
    FlagSet(db, flag, id);
    FlagStays(stamp, es + [SetFlag(flag)], fs, id);
  }

  lemma FlagSet(db: Db, flag: nat, id: CString)
    requires Sane(db) && db.write == Some(id) && id in db.chans
    ensures id in Step(db, SetFlag(flag)).chans && Step(db, SetFlag(flag)).chans[id].flag == flag
  {
    hide Step, Sane, NoteAdded, RoomFits;
    EventExact(db, SetFlag(flag), id);
  }

  lemma NotesEarlier(stamp: nat, es: seq<Event>, p: seq<Event>, e: Event, id: CString)
    requires forall k: nat :: !NotesAt(stamp, es, p + [e], id, k)
    ensures forall k: nat :: !NotesAt(stamp, es, p, id, k)
    ensures !NotesAt(stamp, es, p + [e], id, |p|) && (p + [e])[|p|] == e && es + (p + [e])[..|p|] == es + p
  {
    hide Run;
    forall k: nat | k < |p| ensures !NotesAt(stamp, es, p, id, k) {
      assert (p + [e])[..k] == p[..k];
      assert !NotesAt(stamp, es, p + [e], id, k);
    }
    assert (p + [e])[..|p|] == p;
  }

  /** A channel with notes stays, with those notes, through any run that adds and deletes none on it. */
  lemma {:induction false} NotesStay(stamp: nat, es: seq<Event>, fs: seq<Event>, id: CString)
    requires id in Run(stamp, es).chans && HasNoteSlot(Run(stamp, es).chans[id].notes)
    requires forall k: nat :: !NotesAt(stamp, es, fs, id, k)
    ensures id in Run(stamp, es + fs).chans && Run(stamp, es + fs).chans[id].notes == Run(stamp, es).chans[id].notes
    decreases |fs|
  {
    hide Run, Step, Sane, HasNoteSlot;
    if fs == [] {
      assert es + fs == es;
    } else {
      var n := |fs| - 1;
      var p, e := fs[..n], fs[n];
      assert fs == p + [e] && es + fs == es + p + [e];
      NotesEarlier(stamp, es, p, e, id);
      NotesStay(stamp, es, p, id);
      RunSnoc(stamp, es + p, e);
      MarkStays(Run(stamp, es + p), e, id);
    }
  }
}
