/** One element's database file: what DB_save_iteration writes, DB_load_iteration reads back. */
module SaveFile {
  import opened CStrings
  import opened OpRecords
  import opened Notes
  import opened Channels
  import opened ChannelIndex
  import opened Elements
  import DbModel

  const DB_VERSION_NUMBER := 0x0200001

  /** The fixed-size part of a channel, as struct OCF_channel is written. */
  datatype Fields = Fields(
    timestamp: nat, flag: nat, clientCount: nat, autoFix: seq<nat>, manualFix: seq<nat>,
    opCount: nat, opMax: nat, noteCount: nat)

  /** One fwrite. */
  datatype Record =
    | Version(number: int)
    | Header(curSize: nat, maxSize: nat, subsort: seq<int>)
    | Crc(crc: int)
    | Length(length: nat)
    | Name(name: CString)
    | Struct(fields: Fields)
    | OpRecord(op: Op)
    | NoteRecord(note: Note)

  /** What a file holds. */
  datatype Saved = Saved(chs: seq<Chan>, maxSize: nat, subsort: seq<int>)

  function FieldsOf(c: Chan): Fields {
    Fields(c.timestamp, c.flag, c.clientCount, c.autoFix, c.manualFix, |c.ops|, c.opMax, c.noteCount)
  }

  // ---------------------------------------------------------------- the checksum

  /** The eight-byte words of the name, added up; a shorter tail is not covered. */
  function NameSum(name: CString): nat {
    if |name| < 8 then 0
    else WordOf(name[..8]) + NameSum(name[8..])
  }

  function WordOf(w: CString): nat {
    if w == [] then 0 else w[0] + 256 * WordOf(w[1..])
  }

  /** GetTestCRC, with the wrap-around of a 32-bit int. */
  function TestCrc(name: CString, s: Fields): int {
    (NameSum(name) + s.timestamp + s.noteCount + s.opCount + s.opMax + s.flag) % 0x1_0000_0000
  }

  // ---------------------------------------------------------------- writing

  function SavedOps(ops: seq<Op>): (r: seq<Record>)
    ensures |r| == |ops|
  {
    seq(|ops|, i requires 0 <= i < |ops| => OpRecord(ops[i]))
  }

  function SavedNotes(l: seq<Note>): (r: seq<Record>)
    ensures |r| == |l|
  {
    seq(|l|, i requires 0 <= i < |l| => NoteRecord(l[i]))
  }

  ghost function SavedChan(c: Chan): seq<Record> {
    [Crc(TestCrc(c.name, FieldsOf(c))), Length(|c.name|), Name(c.name), Struct(FieldsOf(c))]
    + SavedOps(c.ops) + SavedNotes(NoteList(c.notes))
  }

  ghost function SavedChans(chs: seq<Chan>): seq<Record> {
    if chs == [] then [] else SavedChan(chs[0]) + SavedChans(chs[1..])
  }

  ghost function SavedFile(s: Saved): seq<Record> {
    [Version(DB_VERSION_NUMBER), Header(|s.chs|, s.maxSize, s.subsort)] + SavedChans(s.chs)
  }

  // ---------------------------------------------------------------- reading

  /** Reads n op records, all of which are there. */
  function ParseOps(f: seq<Record>, n: nat): Option<(seq<Op>, seq<Record>)> {
    if n == 0 then Some(([], f))
    else if f == [] || !f[0].OpRecord? then None
    else match ParseOps(f[1..], n - 1)
      case None => None
      case Some((ops, rest)) => Some(([f[0].op] + ops, rest))
  }

  /** An op record in memory that was never filled in. */
  const BLANK := Op([], [], Zeros())

  /** The file ends inside the n op records that should follow, but behind the first of them. */
  predicate EndsInOps(f: seq<Record>, n: nat) {
    0 < |f| < n && forall i :: 0 <= i < |f| ==> f[i].OpRecord?
  }

  /** What is there of the n op records at the end of a file, the rest blank. */
  function Filled(f: seq<Record>, n: nat): (r: seq<Op>)
    requires EndsInOps(f, n)
    ensures |r| == n
  {
    seq(n, i requires 0 <= i < n => if i < |f| then f[i].op else BLANK)
  }

  /** Asks for n op records with one fread, which counts as a success once it gave at least one. */
  function ReadOps(f: seq<Record>, n: nat): Option<(seq<Op>, seq<Record>)> {
    if EndsInOps(f, n) then Some((Filled(f, n), [])) else ParseOps(f, n)
  }

  function ParseNotes(f: seq<Record>, n: nat): Option<(seq<Note>, seq<Record>)> {
    if n == 0 then Some(([], f))
    else if f == [] || !f[0].NoteRecord? then None
    else match ParseNotes(f[1..], n - 1)
      case None => None
      case Some((l, rest)) => Some(([f[0].note] + l, rest))
  }

  ghost function ParseChan(f: seq<Record>): Option<(Chan, seq<Record>)> {
    if |f| < 4 || !f[0].Crc? || !f[1].Length? || !f[2].Name? || !f[3].Struct? then None
    else
      var l, name, s := f[1].length, f[2].name, f[3].fields;
      if l > DbModel.MAXCHANNELNAME || l == 0 || |name| != l || s.opMax > MAXOPCOUNT || s.opCount > MAXOPCOUNT
         || s.noteCount > MAXNOTECOUNT then None
      else match ReadOps(f[4..], s.opCount)
        case None => None
        case Some((ops, r)) =>
          match ParseNotes(r, s.noteCount)
          case None => None
          case Some((notes, rest)) =>
            if TestCrc(name, s) != f[0].crc || |notes| != s.noteCount then None
            else Some((Chan(name, s.timestamp, s.flag, s.clientCount, s.autoFix, s.manualFix, ops, s.opMax,
                            Compact(notes), s.noteCount), rest))
  }

  ghost function ParseChans(f: seq<Record>, n: nat): Option<(seq<Chan>, seq<Record>)>
    decreases n
  {
    if n == 0 then Some(([], f))
    else match ParseChan(f)
      case None => None
      case Some((c, r)) =>
        match ParseChans(r, n - 1)
        case None => None
        case Some((chs, rest)) => Some(([c] + chs, rest))
  }

  ghost function ParseFile(f: seq<Record>): Option<Saved> {
    if |f| < 2 || f[0] != Version(DB_VERSION_NUMBER) || !f[1].Header? then None
    else match ParseChans(f[2..], f[1].curSize)
      case None => None
      case Some((chs, _)) => Some(Saved(chs, f[1].maxSize, f[1].subsort))
  }

  // ---------------------------------------------------------------- round trip

  ghost predicate Storable(c: Chan) {
    ValidChan(c) && 1 <= |c.name| <= DbModel.MAXCHANNELNAME
  }

  /** A reloaded channel: the same in everything but the holes between its notes. */
  ghost function Reloaded(c: Chan): Chan {
    c.(notes := Compact(NoteList(c.notes)))
  }

  lemma {:induction false} ParseSavedOps(ops: seq<Op>, rest: seq<Record>)
    ensures ParseOps(SavedOps(ops) + rest, |ops|) == Some((ops, rest))
  {
    var f := SavedOps(ops) + rest;
    if ops == [] {
      assert f == rest;
    } else {
      assert f[1..] == SavedOps(ops[1..]) + rest;
      ParseSavedOps(ops[1..], rest);
      assert [ops[0]] + ops[1..] == ops;
    }
  }

  lemma ReadSavedOps(ops: seq<Op>, rest: seq<Record>)
    ensures ReadOps(SavedOps(ops) + rest, |ops|) == Some((ops, rest))
  {
    ParseSavedOps(ops, rest);
  }

  lemma {:induction false} ParseSavedNotes(l: seq<Note>, rest: seq<Record>)
    ensures ParseNotes(SavedNotes(l) + rest, |l|) == Some((l, rest))
  {
    var f := SavedNotes(l) + rest;
    if l == [] {
      assert f == rest;
    } else {
      assert f[1..] == SavedNotes(l[1..]) + rest;
      ParseSavedNotes(l[1..], rest);
      assert [l[0]] + l[1..] == l;
    }
  }

  lemma ParseSavedChan(c: Chan, rest: seq<Record>)
    requires Storable(c)
    ensures ParseChan(SavedChan(c) + rest) == Some((Reloaded(c), rest))
  {
    var l := NoteList(c.notes);
    var f := SavedChan(c) + rest;
    assert f[4..] == SavedOps(c.ops) + (SavedNotes(l) + rest);
    ReadSavedOps(c.ops, SavedNotes(l) + rest);
    ParseSavedNotes(l, rest);
  }

  ghost function ReloadedAll(chs: seq<Chan>): (r: seq<Chan>)
    ensures |r| == |chs| && forall i :: 0 <= i < |chs| ==> r[i] == Reloaded(chs[i])
  {
    seq(|chs|, i requires 0 <= i < |chs| => Reloaded(chs[i]))
  }

  lemma {:induction false} ParseSavedChans(chs: seq<Chan>, rest: seq<Record>, n: nat)
    requires forall i :: 0 <= i < |chs| ==> Storable(chs[i])
    ensures ParseChans(SavedChans(chs) + rest, |chs| + n) == Prepend(ReloadedAll(chs), ParseChans(rest, n))
  {
    hide Storable, Reloaded, SavedChan, ParseChan;
    if chs == [] {
      assert SavedChans(chs) + rest == rest && ReloadedAll(chs) == [];
      if ParseChans(rest, n).Some? { assert [] + ParseChans(rest, n).value.0 == ParseChans(rest, n).value.0; }
    } else {
      var c, t := chs[0], chs[1..];
      assert SavedChans(chs) + rest == SavedChan(c) + (SavedChans(t) + rest);
      ParseSavedChan(c, SavedChans(t) + rest);
      ParseSavedChans(t, rest, n);
      ReloadedCons(chs, ParseChans(rest, n));
    }
  }

  lemma ReloadedCons(chs: seq<Chan>, r: Option<(seq<Chan>, seq<Record>)>)
    requires chs != []
    ensures Prepend(ReloadedAll(chs), r) == Prepend([Reloaded(chs[0])], Prepend(ReloadedAll(chs[1..]), r))
  {
    hide Reloaded;
    var x, t := [Reloaded(chs[0])], ReloadedAll(chs[1..]);
    assert ReloadedAll(chs) == x + t;
    if r.Some? { assert x + t + r.value.0 == x + (t + r.value.0); }
  }

  /** Loading what was saved succeeds, and gives back every channel, its ops in order, and the index. */
  lemma LoadInvertsSave(s: Saved)
    requires forall i :: 0 <= i < |s.chs| ==> Storable(s.chs[i])
    ensures ParseFile(SavedFile(s)) == Some(s.(chs := ReloadedAll(s.chs)))
  {
    hide Storable, Reloaded, SavedChan, ParseChan, SavedChans, ParseChans;
    var f := SavedFile(s);
    assert f[2..] == SavedChans(s.chs) + [];
    ParseSavedChans(s.chs, [], 0);
    NoChans([]);
    assert ReloadedAll(s.chs) + [] == ReloadedAll(s.chs);
  }

  lemma NoChans(f: seq<Record>)
    ensures ParseChans(f, 0) == Some(([], f)) && SavedChans([]) == []
  {
  }

  // ---------------------------------------------------------------- what is accepted

  lemma {:induction false} ParsedOps(f: seq<Record>, n: nat)
    ensures ParseOps(f, n).Some? ==>
              var (ops, rest) := ParseOps(f, n).value;
              |ops| == n && f == SavedOps(ops) + rest
  {
    if n > 0 && ParseOps(f, n).Some? {
      ParsedOps(f[1..], n - 1);
      var (ops, rest) := ParseOps(f[1..], n - 1).value;
      assert SavedOps([f[0].op] + ops) == [f[0]] + SavedOps(ops);
      assert f == [f[0]] + f[1..];
    }
  }

  lemma {:induction false} ParsedNotes(f: seq<Record>, n: nat)
    ensures ParseNotes(f, n).Some? ==>
              var (l, rest) := ParseNotes(f, n).value;
              |l| == n && f == SavedNotes(l) + rest
  {
    if n > 0 && ParseNotes(f, n).Some? {
      ParsedNotes(f[1..], n - 1);
      var (l, rest) := ParseNotes(f[1..], n - 1).value;
      assert SavedNotes([f[0].note] + l) == [f[0]] + SavedNotes(l);
      assert f == [f[0]] + f[1..];
    }
  }

  /** Records that a file lost at its end, each read back as a blank. */
  ghost predicate Lost(lost: seq<Record>) {
    forall i :: 0 <= i < |lost| ==> lost[i] == OpRecord(BLANK)
  }

  /** Up to what was lost, f is what would be written for what was read, followed by the rest. */
  ghost predicate WrittenAs(f: seq<Record>, lost: seq<Record>, saved: seq<Record>, rest: seq<Record>) {
    f + lost == saved + rest && Lost(lost) && (lost != [] ==> rest == [])
  }

  lemma OpsRead(f: seq<Record>, n: nat) returns (lost: seq<Record>)
    ensures ReadOps(f, n).Some? ==>
              var (ops, rest) := ReadOps(f, n).value;
              |ops| == n && WrittenAs(f, lost, SavedOps(ops), rest)
  {
    lost := [];
    if EndsInOps(f, n) {
      lost := seq(n - |f|, _ => OpRecord(BLANK));
      assert f + lost == SavedOps(Filled(f, n)) + [];
    } else {
      ParsedOps(f, n);
      assert f + lost == f;
    }
  }

  /** A channel that is accepted was written as it is read, or the file ends inside its op records. */
  lemma ParsedChan(f: seq<Record>) returns (lost: seq<Record>)
    ensures ParseChan(f).Some? ==>
              var (c, rest) := ParseChan(f).value;
              WrittenAs(f, lost, SavedChan(c), rest)
  {
    lost := [];
    if ParseChan(f).Some? {
      var (c, rest) := ParseChan(f).value;
      var s := f[3].fields;
      lost := OpsRead(f[4..], s.opCount);
      var (ops, r) := ReadOps(f[4..], s.opCount).value;
      ParsedNotes(r, s.noteCount);
      var (l, _) := ParseNotes(r, s.noteCount).value;
      CompactList(l);
      hide ReadOps, ParseNotes, TestCrc, Lost;
      assert FieldsOf(c) == s && NoteList(c.notes) == l;
      assert SavedChan(c) + rest == f[..4] + (SavedOps(ops) + (SavedNotes(l) + rest));
      assert f == f[..4] + f[4..];
      assert f + lost == f[..4] + (f[4..] + lost);
    }
  }

  lemma {:induction false} ParsedChans(f: seq<Record>, n: nat) returns (lost: seq<Record>)
    ensures ParseChans(f, n).Some? ==>
              var (chs, rest) := ParseChans(f, n).value;
              |chs| == n && WrittenAs(f, lost, SavedChans(chs), rest)
    decreases n
  {
    hide ParseChan, SavedChan;
    lost := [];
    if n == 0 {
      assert f + lost == SavedChans([]) + f;
    } else if ParseChans(f, n).Some? {
      var first := ParsedChan(f);
      var (c, r) := ParseChan(f).value;
      lost := ParsedChans(r, n - 1);
      var (chs, rest) := ParseChans(r, n - 1).value;
      assert ([c] + chs)[1..] == chs;
      if first == [] {
        Appends(f, lost, SavedChan(c), r, SavedChans(chs), rest);
      } else {
        NothingLeft(n - 1);
        lost := first;
        assert SavedChans([c]) == SavedChan(c);
      }
    }
  }

  lemma Appends(f: seq<Record>, lost: seq<Record>, a: seq<Record>, r: seq<Record>, b: seq<Record>, rest: seq<Record>)
    requires f + [] == a + r && r + lost == b + rest
    ensures f + lost == a + b + rest
  {
    assert f == a + r;
    assert a + r + lost == a + (r + lost) && a + (b + rest) == a + b + rest;
  }

  lemma NothingLeft(n: nat)
    ensures ParseChans([], n).Some? ==> n == 0
  {
  }

  /** A file that ends inside the op records of the last channel that it announces. */
  ghost predicate CutShort(f: seq<Record>, s: Saved) {
    f < SavedFile(s) && Lost(SavedFile(s)[|f|..])
  }

  /**
   * Whatever is accepted starts with exactly the file that would be saved from what was read, or is such a file
   * cut short, with blank records read in place of the ones that are gone.
   */
  lemma AcceptedIsSaved(f: seq<Record>)
    ensures ParseFile(f).Some? ==> SavedFile(ParseFile(f).value) <= f || CutShort(f, ParseFile(f).value)
  {
    hide ParseChans, SavedChans, Lost;
    if ParseFile(f).Some? {
      var lost := ParsedChans(f[2..], f[1].curSize);
      var (chs, rest) := ParseChans(f[2..], f[1].curSize).value;
      var file := SavedFile(ParseFile(f).value);
      assert f == [f[0], f[1]] + f[2..];
      assert f + lost == [f[0], f[1]] + (f[2..] + lost);
      assert f + lost == file + rest;
      if lost == [] {
        assert f == file + rest;
      } else {
        assert file == f + lost;
        assert file[|f|..] == lost;
      }
    }
  }

  /** A channel with its op records from j on blank. */
  ghost function Blanked(c: Chan, j: nat): Chan
    requires j <= |c.ops|
  {
    c.(ops := seq(|c.ops|, i requires 0 <= i < |c.ops| => if i < j then c.ops[i] else BLANK))
  }

  /** The file of s and a further channel c, cut behind the j-th op record of c. */
  ghost function CutFile(s: Saved, c: Chan, j: nat): seq<Record>
    requires j <= |c.ops|
  {
    [Version(DB_VERSION_NUMBER), Header(|s.chs| + 1, s.maxSize, s.subsort)] + SavedChans(s.chs) + SavedChan(c)[..4 + j]
  }

  lemma ParseCutChan(c: Chan, j: nat)
    requires Storable(c) && NoteList(c.notes) == [] && 0 < j < |c.ops|
    ensures ParseChan(SavedChan(c)[..4 + j]) == Some((Reloaded(Blanked(c, j)), []))
  {
    var f := SavedChan(c)[..4 + j];
    assert f[4..] == SavedOps(c.ops)[..j];
    assert EndsInOps(f[4..], |c.ops|);
    assert Filled(f[4..], |c.ops|) == Blanked(c, j).ops;
    hide TestCrc;
  }

  /**
   * Every file cut behind the first op record of its last channel, if that has no notes, is accepted: the channel
   * comes back with blank records in place of the ones that are gone.
   */
  lemma CutIsAccepted(s: Saved, c: Chan, j: nat)
    requires (forall i :: 0 <= i < |s.chs| ==> Storable(s.chs[i])) && Storable(c)
    requires NoteList(c.notes) == [] && 0 < j < |c.ops|
    ensures ParseFile(CutFile(s, c, j)) == Some(s.(chs := ReloadedAll(s.chs) + [Reloaded(Blanked(c, j))]))
    ensures CutFile(s, c, j) < SavedFile(s.(chs := s.chs + [c]))
  {
    hide Storable, Reloaded, ParseChan, SavedChans, ParseChans, ReloadedAll;
    CutIsPrefix(s, c, j);
    var f, g := CutFile(s, c, j), SavedChan(c)[..4 + j];
    ParseCutChan(c, j);
    assert f[2..] == SavedChans(s.chs) + g;
    ParseSavedChans(s.chs, g, 1);
    LastChan(g, Reloaded(Blanked(c, j)));
  }

  lemma LastChan(g: seq<Record>, d: Chan)
    requires ParseChan(g) == Some((d, []))
    ensures ParseChans(g, 1) == Some(([d], []))
  {
    hide ParseChan;
    NoChans([]);
    assert [d] + [] == [d];
  }

  lemma CutIsPrefix(s: Saved, c: Chan, j: nat)
    requires j < |c.ops|
    ensures CutFile(s, c, j) < SavedFile(s.(chs := s.chs + [c]))
  {
    SavedChansSnoc(s.chs + [c], |s.chs|);
    assert (s.chs + [c])[..|s.chs|] == s.chs && (s.chs + [c])[..|s.chs| + 1] == s.chs + [c];
  }

  // ---------------------------------------------------------------- what runs can save

  ghost predicate ShortNames(db: DbModel.Db) {
    forall k <- db.chans.Keys :: |db.chans[k].name| < DbModel.MAXCHANNELNAME
  }

  lemma WrittenShortNames(db: DbModel.Db, c: Chan)
    requires DbModel.Sane(db) && ShortNames(db) && db.write.Some? && c.name == DbModel.Written(db).name
    ensures ShortNames(DbModel.WithWrite(db, c))
  {
    hide ValidMap, Id;
  }

  lemma ClosedShortNames(db: DbModel.Db)
    requires DbModel.Sane(db) && ShortNames(db)
    ensures ShortNames(DbModel.Closed(db))
  {
    hide ValidMap, Id;
  }

  lemma OpenedShortNames(db: DbModel.Db, name: CString)
    requires ShortNames(db) && DbModel.Bounded(name, DbModel.MAXCHANNELNAME)
    ensures ShortNames(DbModel.Opened(db, name))
  {
    hide IrcFold;
  }

  lemma StepShortNames(db: DbModel.Db, e: DbModel.Event)
    requires DbModel.Sane(db) && ShortNames(db)
    ensures ShortNames(DbModel.Step(db, e))
  {
    hide ShortNames, Registered, RolloverMap, IrcFold;
    match e
    case SetWrite(name) =>
      ClosedShortNames(db);
      if name.Some? && DbModel.Bounded(name.value, DbModel.MAXCHANNELNAME) {
        OpenedShortNames(DbModel.Closed(db), name.value);
      }
    case RegisterOp(user, host) =>
      if DbModel.Accepted(db, user, host) {
        WrittenShortNames(db, RegisterChan(DbModel.Written(db), user, host, db.day));
      }
    case AddNote(note) => if db.write.Some? { WrittenShortNames(db, AddNoteChan(DbModel.Written(db), note)); }
    case DelNote(number) => if db.write.Some? { WrittenShortNames(db, DelNoteChan(DbModel.Written(db), number)); }
    case SetFlag(flag) => if db.write.Some? { WrittenShortNames(db, DbModel.Written(db).(flag := flag)); }
    case UpdateDay(stamp) =>
      ClosedShortNames(db);
      DbModel.ClosedSane(db);
      RolledShortNames(DbModel.Closed(db), stamp % DAYSAMPLES);
  }

  lemma RolledShortNames(db: DbModel.Db, d: nat)
    requires ValidMap(db.chans) && d < DAYSAMPLES && ShortNames(db)
    ensures ShortNames(DbModel.Rolled(db, d))
  {
    forall k <- RolloverMap(db.chans, d).Keys ensures |RolloverMap(db.chans, d)[k].name| < DbModel.MAXCHANNELNAME {
      RolledName(db.chans[k], d);
    }
  }

  lemma RolledName(c: Chan, d: nat)
    requires ValidChan(c) && d < DAYSAMPLES
    ensures RollChan(c, d).name == c.name
  {
  }

  lemma {:induction false} RunShortNames(stamp: nat, es: seq<DbModel.Event>)
    ensures ShortNames(DbModel.Run(stamp, es))
  {
    hide ShortNames, DbModel.Step;
    if es != [] {
      RunShortNames(stamp, es[..|es| - 1]);
      StepShortNames(DbModel.Run(stamp, es[..|es| - 1]), es[|es| - 1]);
    } else {
      NoNames(DbModel.Init(stamp));
    }
  }

  lemma NoNames(db: DbModel.Db)
    requires db.chans == map[]
    ensures ShortNames(db)
  {
  }

  /** In every run every channel can be saved and loaded again, except one without a name. */
  lemma RunStorable(stamp: nat, es: seq<DbModel.Event>, k: CString)
    requires k in DbModel.Run(stamp, es).chans
    ensures Storable(DbModel.Run(stamp, es).chans[k]) <==> k != []
  {
    var db := DbModel.Run(stamp, es);
    RunShortNames(stamp, es);
    hide DbModel.Run;
    assert ValidChan(db.chans[k]) && Id(db.chans[k]) == k;
    assert |IrcFold(db.chans[k].name)| == |db.chans[k].name|;
  }

  /** Nothing a reader can see changes: the notes keep their numbers, and the index still fits. */
  lemma ReloadKeepsView(chs: seq<Chan>, sub: seq<int>)
    requires Indexed(chs, sub) && forall i :: 0 <= i < |chs| ==> Storable(chs[i])
    ensures Indexed(ReloadedAll(chs), sub)
    ensures forall i :: 0 <= i < |chs| ==>
              ReloadedAll(chs)[i] == chs[i].(notes := ReloadedAll(chs)[i].notes)
              && NoteList(ReloadedAll(chs)[i].notes) == NoteList(chs[i].notes) && Storable(ReloadedAll(chs)[i])
  {
    SameNames(chs, ReloadedAll(chs), sub);
    forall i | 0 <= i < |chs|
      ensures NoteList(ReloadedAll(chs)[i].notes) == NoteList(chs[i].notes) && Storable(ReloadedAll(chs)[i])
    {
      CompactList(NoteList(chs[i].notes));
    }
  }

  // ---------------------------------------------------------------- the save and load loops

  /** Writes one channel. */
  method SaveChannel(c: Channel) returns (f: seq<Record>)
    requires c.Valid()
    ensures f == SavedChan(c.View())
  {
    ghost var v := c.View();
    var s := Fields(c.timestamp, c.flag, c.clientCount, c.autoFix, c.manualFix, c.opCount, c.chanop.Length, c.noteCount);
    f := [Crc(TestCrc(c.name, s)), Length(|c.name|), Name(c.name), Struct(s)];
    ghost var head := f;
    for k := 0 to c.opCount
      invariant f == head + SavedOps(v.ops[..k])
    {
      f := f + [OpRecord(c.chanop[k])];
      assert SavedOps(v.ops[..k]) + [OpRecord(v.ops[k])] == SavedOps(v.ops[..k + 1]);
    }
    assert v.ops[..c.opCount] == v.ops;
    head := f;
    for k := 0 to MAXNOTECOUNT
      invariant f == head + SavedNotes(NoteList(v.notes[..k]))
    {
      NoteListStep(v.notes, k);
      if c.channote[k].Some? {
        f := f + [NoteRecord(c.channote[k].value)];
        assert SavedNotes(NoteList(v.notes[..k])) + [NoteRecord(v.notes[k].value)]
            == SavedNotes(NoteList(v.notes[..k + 1]));
      }
    }
    assert v.notes[..MAXNOTECOUNT] == v.notes;
  }

  lemma SavedChansSnoc(chs: seq<Chan>, j: nat)
    requires j < |chs|
    ensures SavedChans(chs[..j + 1]) == SavedChans(chs[..j]) + SavedChan(chs[j])
  {
    hide SavedChan;
    if j == 0 {
      assert chs[..1][1..] == [] && chs[..0] == [];
      assert SavedChans([]) == [];
    } else {
      assert chs[..j + 1][1..] == chs[1..][..j] && chs[..j][1..] == chs[1..][..j - 1];
      SavedChansSnoc(chs[1..], j - 1);
    }
  }

  /** DB_save_iteration, every write succeeding. */
  method Save(e: Element) returns (f: seq<Record>)
    requires e.Valid()
    ensures f == SavedFile(Saved(e.chs, e.channels.Length, e.subsort[..]))
  {
    hide SavedChan;
    f := [Version(DB_VERSION_NUMBER), Header(e.curSize, e.channels.Length, e.subsort[..])];
    ghost var head := f;
    for j := 0 to e.curSize
      invariant f == head + SavedChans(e.chs[..j])
    {
      assert e.Slot(j);
      var r := SaveChannel(e.channels[j]);
      SavedChansSnoc(e.chs, j);
      f := f + r;
    }
    assert e.chs[..e.curSize] == e.chs;
  }

  /** Reads n op records at pos, or as many as there are before the end. */
  method LoadOps(f: seq<Record>, pos: nat, n: nat) returns (r: Option<(seq<Op>, nat)>)
    requires pos <= |f|
    ensures r.Some? ==> r.value.1 <= |f|
    ensures ReadOps(f[pos..], n) ==
            if r.Some? then Some((r.value.0, f[r.value.1..])) else None
  {
    var ops: seq<Op> := [];
    var p := pos;
    assert ParseOps(f[pos..], n) == Prepend([], ParseOps(f[pos..], n)) by {
      if ParseOps(f[pos..], n).Some? { assert [] + ParseOps(f[pos..], n).value.0 == ParseOps(f[pos..], n).value.0; }
    }
    for k := 0 to n
      invariant p == pos + k <= |f| && |ops| == k
      invariant forall i :: 0 <= i < k ==> f[pos + i] == OpRecord(ops[i])
      invariant ParseOps(f[pos..], n) == Prepend(ops, ParseOps(f[p..], n - k))
    {
      if p == |f| && k > 0 {
        assert forall i :: 0 <= i < k ==> f[pos..][i] == OpRecord(ops[i]);
        assert EndsInOps(f[pos..], n) && f[p..] == [];
        var filled := ops + seq(n - k, _ => BLANK);
        assert filled == Filled(f[pos..], n);
        return Some((filled, p));
      }
      if p == |f| || !f[p].OpRecord? {
        assert p < |f| ==> f[pos..][k] == f[p];
        return None;
      }
      assert f[p..][1..] == f[p + 1..];
      PrependLaws(ops, f[p].op, ParseOps(f[p + 1..], n - k - 1), []);
      ops := ops + [f[p].op];
      p := p + 1;
    }
    assert ops + [] == ops;
    return Some((ops, p));
  }

  function Prepend<T>(l: seq<T>, r: Option<(seq<T>, seq<Record>)>): Option<(seq<T>, seq<Record>)> {
    match r
    case None => None
    case Some((m, rest)) => Some((l + m, rest))
  }

  lemma PrependLaws<T>(l: seq<T>, x: T, r: Option<(seq<T>, seq<Record>)>, rest: seq<Record>)
    ensures Prepend([], r) == r
    ensures Prepend(l, Prepend([x], r)) == Prepend(l + [x], r)
    ensures Prepend(l, Some(([], rest))) == Some((l, rest))
  {
    assert l + [] == l;
    if r.Some? {
      assert [] + r.value.0 == r.value.0;
      assert l + ([x] + r.value.0) == l + [x] + r.value.0;
    }
  }

  /** Reads n notes at pos. */
  method LoadNotes(f: seq<Record>, pos: nat, n: nat) returns (r: Option<(seq<Note>, nat)>)
    requires pos <= |f|
    ensures r.Some? ==> r.value.1 <= |f| && |r.value.0| == n
    ensures ParseNotes(f[pos..], n) ==
            if r.Some? then Some((r.value.0, f[r.value.1..])) else None
  {
    var l: seq<Note> := [];
    var p := pos;
    assert ParseNotes(f[pos..], n) == Prepend([], ParseNotes(f[pos..], n)) by {
      if ParseNotes(f[pos..], n).Some? { assert [] + ParseNotes(f[pos..], n).value.0 == ParseNotes(f[pos..], n).value.0; }
    }
    for k := 0 to n
      invariant pos <= p <= |f| && |l| == k
      invariant ParseNotes(f[pos..], n) == Prepend(l, ParseNotes(f[p..], n - k))
    {
      if p == |f| || !f[p].NoteRecord? {
        return None;
      }
      assert f[p..][1..] == f[p + 1..];
      PrependLaws(l, f[p].note, ParseNotes(f[p + 1..], n - k - 1), []);
      l := l + [f[p].note];
      p := p + 1;
    }
    assert l + [] == l;
    return Some((l, p));
  }

  /** Reads one channel at pos. */
  method LoadChannel(f: seq<Record>, pos: nat) returns (r: Option<(Chan, nat)>)
    requires pos <= |f|
    ensures r.Some? ==> r.value.1 <= |f|
    ensures ParseChan(f[pos..]) == if r.Some? then Some((r.value.0, f[r.value.1..])) else None
  {
    if |f| - pos < 4 || !f[pos].Crc? || !f[pos + 1].Length? || !f[pos + 2].Name? || !f[pos + 3].Struct? {
      return None;
    }
    var crc, l, name, s := f[pos].crc, f[pos + 1].length, f[pos + 2].name, f[pos + 3].fields;
    if l > DbModel.MAXCHANNELNAME || l == 0 || |name| != l || s.opMax > MAXOPCOUNT || s.opCount > MAXOPCOUNT
       || s.noteCount > MAXNOTECOUNT {
      return None;
    }
    assert f[pos..][4..] == f[pos + 4..];
    var ops := LoadOps(f, pos + 4, s.opCount);
    if ops.None? { return None; }
    var notes := LoadNotes(f, ops.value.1, s.noteCount);
    if notes.None? || TestCrc(name, s) != crc { return None; }
    r := Some((Chan(name, s.timestamp, s.flag, s.clientCount, s.autoFix, s.manualFix, ops.value.0, s.opMax,
                    Compact(notes.value.0), s.noteCount), notes.value.1));
  }

  /** DB_load_iteration. */
  method Load(f: seq<Record>) returns (r: Option<Saved>)
    ensures r == ParseFile(f)
  {
    if |f| < 2 || f[0] != Version(DB_VERSION_NUMBER) || !f[1].Header? {
      return None;
    }
    hide ParseChan;
    var chs: seq<Chan> := [];
    var n, p := f[1].curSize, 2;
    assert ParseChans(f[2..], n) == Prepend([], ParseChans(f[2..], n)) by {
      if ParseChans(f[2..], n).Some? { assert [] + ParseChans(f[2..], n).value.0 == ParseChans(f[2..], n).value.0; }
    }
    for j := 0 to n
      invariant 0 <= p <= |f|
      invariant ParseChans(f[2..], n) == Prepend(chs, ParseChans(f[p..], n - j))
    {
      var c := LoadChannel(f, p);
      if c.None? { return None; }
      PrependLaws(chs, c.value.0, ParseChans(f[c.value.1..], n - j - 1), []);
      chs := chs + [c.value.0];
      p := c.value.1;
    }
    assert chs + [] == chs;
    return Some(Saved(chs, f[1].maxSize, f[1].subsort));
  }
}
