/** The database proper: 256 elements, the read and write channel pointers and the current day. */
module Database {
  import opened CStrings
  import opened OpRecords
  import opened Notes
  import opened Channels
  import opened ChannelIndex
  import opened Elements
  import DbModel

  const ELEMENTS := 256

  /** The channels of m that belong to element b. */
  ghost function Bucket(m: map<CString, Chan>, b: nat): map<CString, Chan> {
    map k <- m.Keys | DbHash(k) == b :: m[k]
  }

  lemma BucketUpdate(m: map<CString, Chan>, k: CString, v: Chan, b: nat)
    ensures Bucket(m[k := v], b) == if DbHash(k) == b then Bucket(m, b)[k := v] else Bucket(m, b)
  {
  }

  lemma BucketRolled(m: map<CString, Chan>, b: nat, d: nat)
    requires ValidMap(m) && d < DAYSAMPLES
    ensures ValidMap(Bucket(m, b)) && Bucket(RolloverMap(m, d), b) == RolloverMap(Bucket(m, b), d)
  {
    hide RollChan, ValidChan, Keeps;
  }

  /** The elements hold exactly the channels of m, each in the element its name hashes to. */
  ghost predicate Split(es: seq<seq<Chan>>, m: map<CString, Chan>) {
    |es| == ELEMENTS && forall b :: 0 <= b < ELEMENTS ==> DistinctNames(es[b]) && ToMap(es[b]) == Bucket(m, b)
  }

  lemma SplitUpdate(es: seq<seq<Chan>>, m: map<CString, Chan>, b: nat, chs: seq<Chan>, id: CString, v: Chan)
    requires Split(es, m) && b < ELEMENTS && DbHash(id) == b
    requires MapStep(es[b], chs, id, v)
    ensures Split(es[b := chs], m[id := v])
  {
    hide ToMap, Bucket, DbHash, DistinctNames;
    var fs, n := es[b := chs], m[id := v];
    forall a | 0 <= a < ELEMENTS ensures DistinctNames(fs[a]) && ToMap(fs[a]) == Bucket(n, a) {
      assert DistinctNames(es[a]) && ToMap(es[a]) == Bucket(m, a);
      BucketUpdate(m, id, v, a);
    }
  }

  lemma FoldedHash(name: CString)
    ensures DbHash(IrcFold(name)) == DbHash(name)
  {
    assert IrcFold(IrcFold(name)) == IrcFold(name);
    FoldKeepsHashes(name, IrcFold(name));
  }

  /** A name is in the database exactly when the element it hashes to has it. */
  lemma InBucket(es: seq<seq<Chan>>, m: map<CString, Chan>, name: CString)
    requires Split(es, m)
    ensures var h, id := DbHash(name), IrcFold(name);
            DistinctNames(es[h]) && (id in m <==> id in ToMap(es[h])) && (id in m ==> m[id] == ToMap(es[h])[id])
  {
    FoldedHash(name);
    hide DbHash, ToMap;
    assert ToMap(es[DbHash(name)]) == Bucket(m, DbHash(name));
  }

  /** db_channels: the 256 elements. */
  class Table {
    const elements: seq<Element>

    /** All channels, by folded name. */
    ghost var chans: map<CString, Chan>
    /** Everything the elements own. */
    ghost var Repr: set<object>

    ghost predicate Owns(b: nat)
      requires b < |elements|
      reads this, Repr
    {
      var e := elements[b];
      e in Repr && e.Repr <= Repr && this !in e.Repr && e.Valid()
    }

    ghost predicate Apart(a: nat, b: nat)
      requires a < |elements| && b < |elements|
      reads elements
    {
      elements[a] != elements[b] && elements[a].Repr !! elements[b].Repr
    }

    /** Each element owns its own part of the heap. */
    ghost predicate Shape()
      reads this, elements, Repr
    {
      && this in Repr && |elements| == ELEMENTS
      && (forall b :: 0 <= b < ELEMENTS ==> Owns(b))
      && (forall a, b :: 0 <= a < b < ELEMENTS ==> Apart(a, b))
    }

    /** The channel values of every element. */
    ghost function Values(): (v: seq<seq<Chan>>)
      reads elements
      ensures |v| == |elements| && forall b :: 0 <= b < |v| ==> v[b] == elements[b].chs
    {
      seq(|elements|, b requires 0 <= b < |elements| reads elements => elements[b].chs)
    }

    ghost predicate Valid()
      reads this, elements, Repr
    {
      Shape() && Split(Values(), chans)
    }

    /** c is a channel of the element its name hashes to. */
    ghost predicate Has(c: Channel)
      requires Valid()
      reads this, elements, Repr
    {
      assert Owns(DbHash(c.name));
      elements[DbHash(c.name)].Has(c)
    }

    /** What a valid table says of the element a name hashes to. */
    lemma At(name: CString)
      requires Valid()
      ensures |elements| == ELEMENTS && this in Repr
      ensures var e, id := elements[DbHash(name)], IrcFold(name);
              && e in Repr && e.Repr <= Repr && this !in e.Repr && e.Valid() && DistinctNames(e.chs)
              && (id in chans <==> id in ToMap(e.chs))
              && (id in chans ==> chans[id] == ToMap(e.chs)[id])
    {
      assert Owns(DbHash(name)) && Values()[DbHash(name)] == elements[DbHash(name)].chs;
      InBucket(Values(), chans, name);
    }

    /** What a valid table says of a channel it has and of the element that holds it. */
    lemma Member(c: Channel)
      requires Valid() && Has(c)
      ensures |elements| == ELEMENTS && this in Repr && c in Repr && c.Valid()
      ensures IrcFold(c.name) in chans && c.View() == chans[IrcFold(c.name)] && ValidChan(c.View())
      ensures var e := elements[DbHash(c.name)];
              && e in Repr && e.Repr <= Repr && this !in e.Repr && e.Valid() && e.Has(c)
              && c in e.Repr && c.chanop in e.Repr && c.channote in e.Repr
    {
      At(c.name);
      hide ToMap, Id;
      elements[DbHash(c.name)].Lookup(c);
    }

    /** A change inside element b alone, to one entry of its map. */
    twostate lemma Rebuilt(new c: Channel, new e: Element, v: Chan)
      requires old(Valid()) && e == elements[DbHash(c.name)]
      requires e.Valid() && old(e.Repr) <= e.Repr && fresh(e.Repr - old(e.Repr))
      requires Repr == old(Repr) + e.Repr
      requires forall o :: o in old(Repr) && o !in old(e.Repr) && o != this ==> unchanged(o)
      requires MapStep(old(e.chs), e.chs, IrcFold(c.name), v)
      requires chans == old(chans)[IrcFold(c.name) := v]
      ensures Valid()
    {
      var b := DbHash(c.name);
      Reshaped(b);
      FoldedHash(c.name);
      SplitUpdate(old(Values()), old(chans), b, elements[b].chs, IrcFold(c.name), v);
    }

    twostate lemma Reshaped(b: nat)
      requires old(Shape()) && b < ELEMENTS
      requires elements[b].Valid() && old(elements[b].Repr) <= elements[b].Repr
      requires fresh(elements[b].Repr - old(elements[b].Repr))
      requires Repr == old(Repr) + elements[b].Repr
      requires forall o :: o in old(Repr) && o !in old(elements[b].Repr) && o != this ==> unchanged(o)
      ensures Shape() && Values() == old(Values())[b := elements[b].chs]
    {
      forall a | 0 <= a < ELEMENTS && a != b
        ensures Owns(a) && elements[a].chs == old(elements[a].chs) && elements[a].Repr == old(elements[a].Repr)
      {
        assert old(Owns(a)) && old(Owns(b)) && old(Apart(if a < b then a else b, if a < b then b else a));
      }
      assert old(Owns(b));
      forall a, c | 0 <= a < c < ELEMENTS ensures Apart(a, c) {
        assert old(Apart(a, c)) && old(Owns(a)) && old(Owns(c)) && old(Owns(b));
      }
    }

    constructor ()
      ensures Valid() && fresh(Repr) && chans == map[]
    {
      var es: seq<Element> := [];
      ghost var all: set<object> := {};
      while |es| < ELEMENTS
        invariant |es| <= ELEMENTS && fresh(all)
        invariant forall b :: 0 <= b < |es| ==>
                    es[b] in all && es[b].Repr <= all && es[b].Valid() && es[b].chs == []
        invariant forall a, b :: 0 <= a < b < |es| ==> es[a] != es[b] && es[a].Repr !! es[b].Repr
      {
        var e := new Element();
        es := es + [e];
        all := all + e.Repr;
      }
      elements := es;
      chans := map[];
      Repr := {this} + all;
      new;
      assert ToMap([]) == map[];
    }

    /** CE_find_channel in the element the name hashes to. */
    method Find(name: CString) returns (c: Channel?)
      requires Valid()
      ensures c != null <==> IrcFold(name) in chans
      ensures c != null ==> Has(c) && IrcFold(c.name) == IrcFold(name)
    {
      At(name);
      c := elements[DbHash(name)].Find(name);
      if c != null { FoldKeepsHashes(c.name, name); }
    }

    /** Finds the channel or adds it (CE_set_write_channel). */
    method FindOrNew(name: CString) returns (c: Channel)
      requires Valid()
      modifies Repr
      ensures Valid() && fresh(Repr - old(Repr)) && old(Repr) <= Repr
      ensures Has(c) && IrcFold(c.name) == IrcFold(name)
      ensures chans == if IrcFold(name) in old(chans) then old(chans) else old(chans)[IrcFold(name) := NewChan(name)]
    {
      var f := Find(name);
      if f != null {
        c := f;
      } else {
        c := Add(name);
      }
    }

    method Add(name: CString) returns (c: Channel)
      requires Valid() && IrcFold(name) !in chans
      modifies Repr
      ensures Valid() && fresh(Repr - old(Repr)) && old(Repr) <= Repr
      ensures Has(c) && c.name == name && chans == old(chans)[IrcFold(name) := NewChan(name)]
    {
      hide MapStep, Split, Bucket, DistinctNames, Owns, Apart, Shape, Values, Element.Slot, Element.Apart, Element.Valid,
           Element.Has, Indexed, ValidChan, IrcFold, DbHash, NewChan, ToMap;
      At(name);
      var e := elements[DbHash(name)];
      c := e.New(name);
      chans := chans[IrcFold(name) := NewChan(name)];
      Repr := Repr + e.Repr;
      Rebuilt(c, e, NewChan(name));
    }

    /** DB_write_end on one channel. */
    method Close(c: Channel)
      requires Valid() && Has(c)
      modifies Repr
      ensures Valid() && Repr == old(Repr) && Has(c)
      ensures IrcFold(c.name) in old(chans)
      ensures chans == old(chans)[IrcFold(c.name) := SortChan(old(chans)[IrcFold(c.name)])]
    {
      hide MapStep, ToMap, Split, Bucket, DistinctNames, Owns, Apart, Shape, Values, Element.Slot, Element.Apart, Element.Valid,
           Element.Has, Indexed, ValidChan, IrcFold, DbHash, SortChan;
      Member(c);
      var e := elements[DbHash(c.name)];
      ghost var v := SortChan(c.View());
      e.Close(c);
      chans := chans[IrcFold(c.name) := v];
      Rebuilt(c, e, v);
    }

    /** CE_register_op on one channel. */
    method Register(c: Channel, user: CString, host: CString, d: nat)
      requires Valid() && Has(c) && d < DAYSAMPLES
      modifies Repr
      ensures Valid() && fresh(Repr - old(Repr)) && old(Repr) <= Repr && Has(c)
      ensures IrcFold(c.name) in old(chans) && ValidChan(old(chans)[IrcFold(c.name)])
      ensures chans == old(chans)[IrcFold(c.name) := RegisterChan(old(chans)[IrcFold(c.name)], user, host, d)]
    {
      hide MapStep, ToMap, Split, Bucket, DistinctNames, Owns, Apart, Shape, Values, Element.Slot, Element.Apart, Element.Valid,
           Element.Has, Indexed, ValidChan, IrcFold, DbHash, RegisterChan;
      Member(c);
      var e := elements[DbHash(c.name)];
      ghost var v := RegisterChan(c.View(), user, host, d);
      e.Register(c, user, host, d);
      chans := chans[IrcFold(c.name) := v];
      Repr := Repr + e.Repr;
      Rebuilt(c, e, v);
    }

    /** DB_channel_add_note on one channel. */
    method AddNote(c: Channel, note: Note) returns (count: nat)
      requires Valid() && Has(c)
      modifies Repr
      ensures Valid() && Repr == old(Repr) && Has(c)
      ensures IrcFold(c.name) in old(chans)
      ensures chans == old(chans)[IrcFold(c.name) := AddNoteChan(old(chans)[IrcFold(c.name)], note)]
      ensures count == chans[IrcFold(c.name)].noteCount
    {
      hide MapStep, ToMap, Split, Bucket, DistinctNames, Owns, Apart, Shape, Values, Element.Slot, Element.Apart, Element.Valid,
           Element.Has, Indexed, ValidChan, IrcFold, DbHash, AddNoteChan;
      Member(c);
      var e := elements[DbHash(c.name)];
      ghost var v := AddNoteChan(c.View(), note);
      count := e.AddNote(c, note);
      chans := chans[IrcFold(c.name) := v];
      Rebuilt(c, e, v);
    }

    /** DB_channel_del_note on one channel. */
    method DelNote(c: Channel, number: int) returns (ok: bool)
      requires Valid() && Has(c)
      modifies Repr
      ensures Valid() && Repr == old(Repr) && Has(c)
      ensures IrcFold(c.name) in old(chans)
      ensures chans == old(chans)[IrcFold(c.name) := DelNoteChan(old(chans)[IrcFold(c.name)], number)]
      ensures ok <==> 1 <= number <= |NoteList(old(chans)[IrcFold(c.name)].notes)|
    {
      hide MapStep, ToMap, Split, Bucket, DistinctNames, Owns, Apart, Shape, Values, Element.Slot, Element.Apart, Element.Valid,
           Element.Has, Indexed, ValidChan, IrcFold, DbHash, DelNoteChan;
      Member(c);
      var e := elements[DbHash(c.name)];
      ghost var v := DelNoteChan(c.View(), number);
      ok := e.DelNote(c, number);
      chans := chans[IrcFold(c.name) := v];
      Rebuilt(c, e, v);
    }

    /** DB_channel_set_flag on one channel. */
    method SetFlag(c: Channel, flag: nat)
      requires Valid() && Has(c)
      modifies Repr
      ensures Valid() && Repr == old(Repr) && Has(c)
      ensures IrcFold(c.name) in old(chans)
      ensures chans == old(chans)[IrcFold(c.name) := old(chans)[IrcFold(c.name)].(flag := flag)]
    {
      hide MapStep, ToMap, Split, Bucket, DistinctNames, Owns, Apart, Shape, Values, Element.Slot, Element.Apart, Element.Valid,
           Element.Has, Indexed, ValidChan, IrcFold, DbHash, NewChan;
      Member(c);
      var e := elements[DbHash(c.name)];
      ghost var v := c.View().(flag := flag);
      e.SetFlag(c, flag);
      chans := chans[IrcFold(c.name) := v];
      Rebuilt(c, e, v);
    }

    lemma ValuesValid()
      requires Valid()
      ensures ValidValues(Values()) && ValidMap(chans)
    {
      forall b | 0 <= b < ELEMENTS ensures AllValid(Values()[b]) {
        assert Owns(b);
        elements[b].ValidValues();
      }
      SplitValid(Values(), chans);
    }

    /** CE_update_day on every element. */
    method UpdateDay(d: nat)
      requires Valid() && d < DAYSAMPLES
      modifies Repr
      ensures Valid() && fresh(Repr - old(Repr)) && old(Repr) <= Repr
      ensures ValidMap(old(chans)) && chans == RolloverMap(old(chans), d)
    {
      ValuesValid();
      ghost var v0 := Values();
      assert RolledUpTo(v0, v0, d, 0);
      hide *;
      for i := 0 to ELEMENTS
        invariant Shape() && fresh(Repr - old(Repr)) && old(Repr) <= Repr && chans == old(chans)
        invariant RolledUpTo(v0, Values(), d, i)
      {
        RollElement(i, d, v0);
      }
      Finish(v0, d);
    }

    ghost method Finish(v0: seq<seq<Chan>>, d: nat)
      requires Shape() && ValidMap(chans) && Split(v0, chans) && RolledUpTo(v0, Values(), d, ELEMENTS)
      modifies this
      ensures Valid() && Repr == old(Repr) && chans == RolloverMap(old(chans), d)
    {
      SplitRolled(v0, Values(), chans, d);
      hide RolloverMap, Split, RolledUpTo;
      chans := RolloverMap(chans, d);
      Renamed();
    }

    /** Only the ghost map was replaced. */
    twostate lemma Renamed()
      requires old(Shape()) && Repr == old(Repr) && forall o :: o in Repr && o != this ==> unchanged(o)
      ensures Shape() && Values() == old(Values())
    {
      forall b | 0 <= b < ELEMENTS ensures Owns(b) { assert old(Owns(b)); }
      forall a, b | 0 <= a < b < ELEMENTS ensures Apart(a, b) { assert old(Apart(a, b)) && Owns(a) && Owns(b); }
      forall b | 0 <= b < ELEMENTS ensures elements[b].chs == old(elements[b].chs) { assert Owns(b); }
    }

    method RollElement(i: nat, d: nat, ghost v0: seq<seq<Chan>>)
      requires Shape() && i < ELEMENTS && RolledUpTo(v0, Values(), d, i)
      modifies Repr
      ensures Shape() && fresh(Repr - old(Repr)) && old(Repr) <= Repr && chans == old(chans)
      ensures RolledUpTo(v0, Values(), d, i + 1)
    {
      assert Owns(i) && Values()[i] == v0[i];
      hide Rollover, AllValid;
      var e := elements[i];
      e.UpdateDay(d);
      Repr := Repr + e.Repr;
      Reshaped(i);
    }
  }

  /** The database: the elements, the channel open for writing and the slot of the current day. */
  class Store {
    const table: Table
    var writeChannel: Channel?
    var currentDay: nat

    ghost function View(): DbModel.Db
      reads this, table
    {
      DbModel.Db(table.chans, if writeChannel == null then None else Some(IrcFold(writeChannel.name)), currentDay)
    }

    ghost predicate Valid()
      reads this, table, table.elements, table.Repr
    {
      && this !in table.Repr && table.Valid()
      && (writeChannel != null ==> table.Has(writeChannel))
      && DbModel.Sane(View())
    }

    /** DB_start, then DB_set_day. */
    constructor (stamp: nat)
      ensures Valid() && fresh(table.Repr) && View() == DbModel.Init(stamp)
    {
      table := new Table();
      writeChannel := null;
      currentDay := stamp % DAYSAMPLES;
    }

    /** DB_set_read_channel: the channel a read goes to, or null. */
    method Reader(channel: Option<CString>) returns (c: Channel?)
      requires Valid()
      ensures c != null <==> channel.Some? && IrcFold(channel.value) in View().chans
      ensures c != null ==> c.Valid() && c.View() == View().chans[IrcFold(channel.value)]
    {
      if channel.None? { return null; }
      hide IrcFold, DbModel.Sane;
      c := table.Find(channel.value);
      if c != null { table.Member(c); }
    }

    /** Wraps up a channel that was left open for writing. */
    method CloseWrite()
      requires Valid()
      modifies this, table.Repr
      ensures Valid() && table.Repr == old(table.Repr) && currentDay == old(currentDay)
      ensures View() == DbModel.Closed(old(View())) && writeChannel == null
    {
      DbModel.ClosedSane(View());
      if writeChannel == null { return; }
      hide DbModel.Sane, SortChan, IrcFold;
      table.Close(writeChannel);
      writeChannel := null;
    }

    /** DB_set_write_channel: sorts and closes what was open, then opens or creates the channel. */
    method SetWriteChannel(channel: Option<CString>) returns (ok: bool)
      requires Valid()
      modifies this, table.Repr
      ensures Valid() && fresh(table.Repr - old(table.Repr)) && old(table.Repr) <= table.Repr
      ensures View() == DbModel.Step(old(View()), DbModel.SetWrite(channel))
      ensures ok <==> channel.None? || DbModel.Bounded(channel.value, DbModel.MAXCHANNELNAME)
    {
      hide DbModel.Step, DbModel.Closed, DbModel.Opened, IrcFold, ValidMap, Table.Valid;
      DbModel.StepSane(View(), DbModel.SetWrite(channel));
      DbModel.StepOpens(View(), channel);
      CloseWrite();
      ok := true;
      if channel.Some? {
        ok := |channel.value| < DbModel.MAXCHANNELNAME;
        if ok { Open(channel.value); }
      }
    }

    method Open(name: CString)
      requires Valid() && writeChannel == null && DbModel.Sane(DbModel.Opened(View(), name))
      modifies this, table.Repr
      ensures Valid() && fresh(table.Repr - old(table.Repr)) && old(table.Repr) <= table.Repr
      ensures View() == DbModel.Opened(old(View()), name)
    {
      hide NewChan, IrcFold, ValidChan, ValidMap, Id, Split, Table.Owns, Table.Apart;
      var c := table.FindOrNew(name);
      writeChannel := c;
      assert View() == DbModel.Opened(old(View()), name);
    }

    /** DB_register_op. */
    method RegisterOp(user: CString, host: CString)
      requires Valid()
      modifies this, table.Repr
      ensures Valid() && fresh(table.Repr - old(table.Repr)) && old(table.Repr) <= table.Repr
      ensures View() == DbModel.Step(old(View()), DbModel.RegisterOp(user, host))
    {
      DbModel.StepSane(View(), DbModel.RegisterOp(user, host));
      if writeChannel == null || |user| >= DbModel.USERLEN || |host| >= DbModel.HOSTLEN { return; }
      hide RegisterChan, IrcFold, ValidChan;
      table.Register(writeChannel, user, host, currentDay);
    }

    /** DB_channel_add_note. */
    method AddNote(note: Note) returns (count: nat)
      requires Valid()
      modifies this, table.Repr
      ensures Valid() && table.Repr == old(table.Repr)
      ensures View() == DbModel.Step(old(View()), DbModel.AddNote(note))
      ensures count == if View().write.None? then 0 else DbModel.Written(View()).noteCount
    {
      DbModel.StepSane(View(), DbModel.AddNote(note));
      if writeChannel == null { return 0; }
      hide AddNoteChan, IrcFold, ValidChan;
      count := table.AddNote(writeChannel, note);
    }

    /** DB_channel_del_note. */
    method DelNote(number: int) returns (ok: bool)
      requires Valid()
      modifies this, table.Repr
      ensures Valid() && table.Repr == old(table.Repr)
      ensures View() == DbModel.Step(old(View()), DbModel.DelNote(number))
      ensures ok <==> old(View()).write.Some? && 1 <= number <= |NoteList(DbModel.Written(old(View())).notes)|
    {
      DbModel.StepSane(View(), DbModel.DelNote(number));
      if writeChannel == null { return false; }
      hide DelNoteChan, IrcFold, ValidChan;
      ok := table.DelNote(writeChannel, number);
    }

    /** DB_channel_set_flag. */
    method SetFlag(flag: nat)
      requires Valid()
      modifies this, table.Repr
      ensures Valid() && table.Repr == old(table.Repr)
      ensures View() == DbModel.Step(old(View()), DbModel.SetFlag(flag))
    {
      DbModel.StepSane(View(), DbModel.SetFlag(flag));
      if writeChannel == null { return; }
      hide IrcFold, ValidChan;
      table.SetFlag(writeChannel, flag);
    }

    /** DB_update_day: closes the open channel and rolls every element over to the new slot. */
    method UpdateDay(daystamp: nat)
      requires Valid()
      modifies this, table.Repr
      ensures Valid() && fresh(table.Repr - old(table.Repr)) && old(table.Repr) <= table.Repr
      ensures View() == DbModel.Step(old(View()), DbModel.UpdateDay(daystamp))
    {
      hide DbModel.Step, DbModel.Closed, IrcFold, RolloverMap, ValidMap, Table.Valid;
      DbModel.StepSane(View(), DbModel.UpdateDay(daystamp));
      DbModel.StepRolls(View(), daystamp);
      CloseWrite();
      table.UpdateDay(daystamp % DAYSAMPLES);
      currentDay := daystamp % DAYSAMPLES;
    }
  }

  ghost predicate ValidValues(es: seq<seq<Chan>>) {
    |es| == ELEMENTS && forall b :: 0 <= b < ELEMENTS ==> AllValid(es[b])
  }

  /** The first i elements have been rolled over. */
  ghost predicate RolledUpTo(v0: seq<seq<Chan>>, v: seq<seq<Chan>>, d: nat, i: nat) {
    && ValidValues(v0) && d < DAYSAMPLES && |v| == ELEMENTS
    && forall b :: 0 <= b < ELEMENTS ==> v[b] == if b < i then Rollover(v0[b], d) else v0[b]
  }

  lemma SplitValid(es: seq<seq<Chan>>, m: map<CString, Chan>)
    requires ValidValues(es) && Split(es, m)
    ensures ValidMap(m)
  {
    forall k <- m.Keys ensures ValidChan(m[k]) {
      hide ValidChan, DbHash;
      assert k in Bucket(m, DbHash(k));
      var i := MapLookup(es[DbHash(k)], k);
    }
  }

  lemma SplitRolled(v0: seq<seq<Chan>>, v: seq<seq<Chan>>, m: map<CString, Chan>, d: nat)
    requires ValidMap(m) && Split(v0, m) && RolledUpTo(v0, v, d, ELEMENTS)
    ensures Split(v, RolloverMap(m, d))
  {
    hide Rollover, RolloverMap, AllValid, ValidMap, Bucket, ToMap, DistinctNames;
    forall b | 0 <= b < ELEMENTS ensures DistinctNames(v[b]) && ToMap(v[b]) == Bucket(RolloverMap(m, d), b) {
      assert AllValid(v0[b]) && DistinctNames(v0[b]) && ToMap(v0[b]) == Bucket(m, b);
      RolloverAsMap(v0[b], d);
      BucketRolled(m, b, d);
    }
  }
}
