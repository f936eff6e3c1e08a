/** One ChannelElement: a growable array of channels, grouped by sub-hash and indexed by subsort. */
module Elements {
  import opened CStrings
  import opened OpRecords
  import opened Notes
  import opened Channels
  import opened ChannelIndex

  const DBCACHEINITSIZE := 256
  const DBCACHEINCREASE := 1024

  class Element {
    var channels: array<Channel?>
    var curSize: nat
    var subsort: array<int>

    /** The channel values, in array order. */
    ghost var chs: seq<Chan>
    ghost var Repr: set<object>

    ghost predicate Slot(i: nat)
      requires i < curSize <= channels.Length && i < |chs|
      reads this, Repr, channels
    {
      var c := channels[i];
      && c != null && c in Repr
      && c.chanop in Repr && c.channote in Repr
      && (c.chanop as object) != channels && (c.chanop as object) != subsort
      && (c.channote as object) != channels && (c.channote as object) != subsort
      && c.Valid() && c.View() == chs[i]
    }

    ghost predicate Apart(i: nat, j: nat)
      requires i < curSize <= channels.Length && j < curSize
      reads this, Repr, channels
    {
      var c, d := channels[i], channels[j];
      c != null && d != null && c in Repr && d in Repr ==>
        c != d && c.chanop != d.chanop && c.channote != d.channote
        && (c.chanop as object) != d.channote && (c.channote as object) != d.chanop
    }

    ghost predicate Valid()
      reads this, Repr
    {
      && this in Repr && channels in Repr && subsort in Repr
      && (channels as object) != subsort
      && curSize < channels.Length && |chs| == curSize
      && (forall i :: 0 <= i < curSize ==> Slot(i))
      && (forall i, j :: 0 <= i < j < curSize ==> Apart(i, j))
      && Indexed(chs, subsort[..])
    }

    /** c is one of the channels of this element. */
    ghost predicate Has(c: Channel?)
      reads this`channels, this`curSize, channels
    {
      curSize <= channels.Length && exists i :: 0 <= i < curSize && channels[i] == c
    }

    ghost function PlaceOf(c: Channel): (i: nat)
      requires Has(c)
      reads this`channels, this`curSize, channels
      ensures i < curSize && channels[i] == c
    {
      var i :| 0 <= i < curSize && channels[i] == c; i
    }

    /** A member channel carries the value the map holds under its folded name. */
    lemma Lookup(c: Channel)
      requires Valid() && Has(c)
      ensures c in Repr && c.chanop in Repr && c.channote in Repr && c.Valid()
      ensures IrcFold(c.name) in ToMap(chs) && ToMap(chs)[IrcFold(c.name)] == c.View()
    {
      var i := PlaceOf(c);
      assert Slot(i) && Id(chs[i]) in ToMap(chs);
    }

    /** CE_reset. */
    constructor ()
      ensures Valid() && fresh(Repr) && chs == []
    {
      channels := new Channel?[DBCACHEINITSIZE](_ => null);
      curSize := 0;
      subsort := new int[256](_ => 0);
      chs := [];
      new;
      Repr := {this, channels, subsort};
    }

    /** The search shared by lookup and removal: from subsort[h] to the end. */
    method Locate(name: CString) returns (i: nat)
      requires Valid()
      ensures i <= curSize
      ensures i < curSize ==> Id(chs[i]) == IrcFold(name)
      ensures i < curSize <==> IrcFold(name) in ToMap(chs)
    {
      var h := CeHash(name);
      i := subsort[h];
      while i < curSize
        invariant subsort[h] <= i <= curSize
        invariant forall j :: 0 <= j < i ==> Id(chs[j]) != IrcFold(name)
      {
        assert Slot(i);
        var r := IrcCmp(channels[i].name, name);
        if r == 0 {
          assert Id(chs[i]) in ToMap(chs);
          return;
        }
        i := i + 1;
      }
    }

    /** CE_find_channel: null exactly when the map has no such name. */
    method Find(name: CString) returns (c: Channel?)
      requires Valid()
      ensures c != null <==> IrcFold(name) in ToMap(chs)
      ensures c != null ==> Has(c) && c in Repr && IrcFold(c.name) == IrcFold(name)
    {
      var i := Locate(name);
      if i < curSize {
        assert Slot(i);
        c := channels[i];
      } else {
        c := null;
      }
    }

    /** CE_new_channel, reached only for a name that is not stored yet. */
    method New(name: CString) returns (c: Channel)
      requires Valid() && IrcFold(name) !in ToMap(chs)
      modifies this, channels, subsort
      ensures Valid() && fresh(Repr - old(Repr)) && old(Repr) <= Repr
      ensures chs == InsertedAt(old(chs), old(subsort[CeHash(name)]), NewChan(name))
      ensures MapStep(old(chs), chs, IrcFold(name), NewChan(name))
      ensures Has(c) && c.name == name
      ensures forall i :: 0 <= i < old(curSize) ==> Has(old(channels[i]))
    {
      hide Indexed, ToMap, MapStep, Slot, Apart, ValidChan, Id, NewChan, InsertedAt, Bumped, CeHash, IrcFold;
      SubsortFits(name);
      Reserve();
      var r := FindSpot(name);
      SpotIsFirst(name, r);
      InsertStep(chs, subsort[..], name);
      c := Splice(name, r);
    }

    lemma SubsortFits(name: CString)
      requires Valid()
      ensures subsort.Length == 256 && 0 <= subsort[CeHash(name)] <= curSize && DistinctNames(chs)
    {
    }

    /** For a new name the walk stops at once. */
    lemma SpotIsFirst(name: CString, r: nat)
      requires Valid() && IrcFold(name) !in ToMap(chs) && subsort.Length == 256
      requires 0 <= subsort[CeHash(name)] <= r <= curSize
      requires forall j :: subsort[CeHash(name)] <= j < r ==> Id(chs[j]) == IrcFold(name)
      ensures r == subsort[CeHash(name)]
    {
      SpotOfNew(chs, subsort[CeHash(name)], r, IrcFold(name));
    }

    /** Puts a new channel in at r, given that the index will be right afterwards. */
    method Splice(name: CString, r: nat) returns (c: Channel)
      requires Valid() && r <= curSize && curSize + 1 < channels.Length
      requires Indexed(InsertedAt(chs, r, NewChan(name)), Bumped(subsort[..], CeHash(name)))
      modifies this`curSize, this`chs, this`Repr, channels, subsort
      ensures Valid() && fresh(Repr - old(Repr)) && old(Repr) <= Repr
      ensures chs == InsertedAt(old(chs), r, NewChan(name))
      ensures Has(c) && c.name == name
      ensures forall i :: 0 <= i < old(curSize) ==> Has(old(channels[i]))
    {
      curSize, chs := curSize + 1, InsertedAt(chs, r, NewChan(name));
      c := PlaceNew(channels, subsort, r, curSize - 1, name);
      Repr := Repr + {c, c.chanop, c.channote};
      assert c.View() == NewChan(name);
      Placed(c, r);
      assert channels[r] == c;
      forall k | 0 <= k < old(curSize) ensures Has(old(channels[k])) {
        assert channels[if k < r then k else k + 1] == old(channels[k]);
      }
    }

    /** A fresh channel spliced in at r leaves a valid element. */
    twostate lemma Placed(new c: Channel, r: nat)
      requires old(Valid()) && r <= old(curSize) && curSize == old(curSize) + 1 < channels.Length
      requires channels == old(channels) && subsort == old(subsort)
      requires fresh(c) && fresh(c.chanop) && fresh(c.channote)
      requires c.Valid() && chs == InsertedAt(old(chs), r, c.View())
      requires forall j :: 0 <= j < r ==> channels[j] == old(channels[j])
      requires forall j :: r < j < curSize ==> channels[j] == old(channels[j - 1])
      requires channels[r] == c && Indexed(chs, subsort[..])
      requires Repr == old(Repr) + {c, c.chanop, c.channote}
      requires forall o :: o in old(Repr) && o != this && o != channels && o != subsort ==> unchanged(o)
      ensures Valid()
    {
      forall i | 0 <= i < curSize ensures Slot(i) {
        if i == r {
        } else {
          var k := if i < r then i else i - 1;
          assert old(Slot(k)) && channels[i] == old(channels[k]) && chs[i] == old(chs[k]);
        }
      }
      forall i, j | 0 <= i < j < curSize ensures Apart(i, j) {
        assert i == r || old(Slot(if i < r then i else i - 1));
        assert j == r || old(Slot(if j < r then j else j - 1));
        assert i == r || j == r || old(Apart(if i < r then i else i - 1, if j < r then j else j - 1));
      }
    }

    /** Grows the array when it is down to its last free place. */
    method Reserve()
      requires Valid()
      modifies this`channels, this`Repr
      ensures Valid() && fresh(Repr - old(Repr)) && old(Repr) <= Repr
      ensures curSize + 1 < channels.Length
      ensures channels == old(channels) || fresh(channels)
      ensures forall i :: 0 <= i < old(curSize) ==> Has(old(channels[i]))
    {
      if curSize + 1 >= channels.Length {
        channels := Enlarged(channels, curSize);
        Repr := Repr + {channels};
        forall i | 0 <= i < curSize ensures Slot(i) { assert old(Slot(i)); }
        forall i, j | 0 <= i < j < curSize ensures Apart(i, j) { assert old(Apart(i, j)); }
        forall k | 0 <= k < curSize ensures Has(old(channels[k])) { assert channels[k] == old(channels[k]); }
      }
    }

    /** The first place from subsort[h] on whose name compares greater, which irccmp says of any other name. */
    method FindSpot(name: CString) returns (r: nat)
      requires Valid()
      ensures subsort[CeHash(name)] <= r <= curSize
      ensures forall j :: subsort[CeHash(name)] <= j < r ==> Id(chs[j]) == IrcFold(name)
      ensures r == curSize || Id(chs[r]) != IrcFold(name)
    {
      var h, f := CeHash(name), false;
      r := subsort[h];
      while r < curSize && !f
        invariant subsort[h] <= r <= curSize
        invariant forall j :: subsort[h] <= j < r ==> Id(chs[j]) == IrcFold(name)
        invariant f ==> r < curSize && Id(chs[r]) != IrcFold(name)
        decreases curSize - r, !f
      {
        assert Slot(r);
        var v := IrcCmp(channels[r].name, name);
        if v >= 1 {
          f := true;
        } else {
          r := r + 1;
        }
      }
    }

    /** CE_del_channel: takes the channel out, shifting the rest down. */
    method Delete(name: CString) returns (ok: bool)
      requires Valid()
      modifies this`curSize, this`chs, channels, subsort
      ensures Valid()
      ensures ok <==> IrcFold(name) in ToMap(old(chs))
      ensures !ok ==> chs == old(chs) && curSize == old(curSize)
      ensures ok ==> forall i :: 0 <= i < |old(chs)| && Id(old(chs)[i]) == IrcFold(name) ==>
                       chs == RemovedAt(old(chs), i)
      ensures ok ==> ToMap(chs) == ToMap(old(chs)) - {IrcFold(name)}
    {
      var i := Locate(name);
      if i == curSize {
        return false;
      }
      FoldKeepsHashes(name, chs[i].name);
      RemoveIndexed(chs, subsort[..], i);
      Excise(i, CeHash(name));
      ok := true;
    }

    /** Takes entry i out, given that the index will be right afterwards. */
    method Excise(i: nat, h: nat)
      requires Valid() && i < curSize && h < 256
      requires Indexed(RemovedAt(chs, i), Dropped(subsort[..], h))
      modifies this`curSize, this`chs, channels, subsort
      ensures Valid() && chs == RemovedAt(old(chs), i)
    {
      ShiftDownFrom(channels, i, curSize);
      DecrementFrom(subsort, h);
      curSize := curSize - 1;
      chs := RemovedAt(chs, i);
      Removed(i);
    }

    /** Closing the gap at i leaves a valid element. */
    twostate lemma Removed(i: nat)
      requires old(Valid()) && i < old(curSize) && curSize == old(curSize) - 1
      requires channels == old(channels) && subsort == old(subsort) && Repr == old(Repr)
      requires chs == RemovedAt(old(chs), i)
      requires forall j :: 0 <= j < i ==> channels[j] == old(channels[j])
      requires forall j :: i <= j < curSize ==> channels[j] == old(channels[j + 1])
      requires Indexed(chs, subsort[..])
      requires forall o :: o in old(Repr) && o != this && o != channels && o != subsort ==> unchanged(o)
      ensures Valid()
    {
      forall j | 0 <= j < curSize ensures Slot(j) {
        assert old(Slot(if j < i then j else j + 1));
      }
      forall j, k | 0 <= j < k < curSize ensures Apart(j, k) {
        assert old(Slot(if j < i then j else j + 1)) && old(Slot(if k < i then k else k + 1));
        assert old(Apart(if j < i then j else j + 1, if k < i then k else k + 1));
      }
    }

    /** Changing one channel and refreshing its value leaves a valid element. */
    twostate lemma Refreshed(i: nat)
      requires old(Valid()) && i < old(curSize) && curSize == old(curSize)
      requires channels == old(channels) && subsort == old(subsort)
      requires unchanged(channels) && unchanged(subsort)
      requires channels[i] != null && channels[i].Valid() && chs == old(chs)[i := channels[i].View()]
      requires var c := channels[i];
               && (c.chanop == old(c.chanop) || fresh(c.chanop))
               && c.channote == old(c.channote)
               && Repr == old(Repr) + {c.chanop}
               && forall o :: o in old(Repr) && o != this && o != c && o != old(c.chanop) && o != old(c.channote) ==>
                    unchanged(o)
      requires Indexed(chs, subsort[..])
      ensures Valid()
    {
      hide Indexed, ValidChan;
      assert old(Slot(i));
      forall j | 0 <= j < curSize ensures Slot(j) {
        assert old(Slot(j)) && (j < i ==> old(Apart(j, i))) && (i < j ==> old(Apart(i, j)));
      }
      forall j, k | 0 <= j < k < curSize ensures Apart(j, k) {
        assert old(Slot(j)) && old(Slot(k)) && old(Apart(j, k));
      }
    }

    ghost predicate At(i: nat)
      reads this, Repr
    {
      Valid() && i < curSize && Slot(i)
    }

    method ClearAt(i: nat, d: nat)
      requires At(i) && d < DAYSAMPLES
      modifies this`chs, channels[i].chanop
      ensures Valid() && chs == old(chs)[i := ClearChan(old(chs)[i], d)]
    {
      UpdateIndexed(chs, subsort[..], i, ClearChan(chs[i], d));
      channels[i].ClearDay(d);
      chs := chs[i := ClearChan(chs[i], d)];
      Refreshed(i);
    }

    method SortAt(i: nat)
      requires At(i)
      modifies this`chs, channels[i].chanop
      ensures Valid() && chs == old(chs)[i := SortChan(old(chs)[i])]
    {
      UpdateIndexed(chs, subsort[..], i, SortChan(chs[i]));
      channels[i].WriteEnd();
      chs := chs[i := SortChan(chs[i])];
      Refreshed(i);
    }

    method CutAt(i: nat)
      requires At(i) && Descending(chs[i].ops)
      modifies this`chs, channels[i]
      ensures Valid() && chs == old(chs)[i := old(chs)[i].(ops := Positive(old(chs)[i].ops))]
    {
      UpdateIndexed(chs, subsort[..], i, chs[i].(ops := Positive(chs[i].ops)));
      channels[i].CutNonScorers();
      chs := chs[i := chs[i].(ops := Positive(chs[i].ops))];
      Refreshed(i);
    }

    method ShrinkAt(i: nat)
      requires At(i) && chs[i].ops != []
      modifies this`chs, this`Repr, channels[i]
      ensures Valid() && fresh(Repr - old(Repr)) && old(Repr) <= Repr
      ensures chs == old(chs)[i := old(chs)[i].(opMax := Shrunk(old(chs)[i].opMax, |old(chs)[i].ops|))]
    {
      UpdateIndexed(chs, subsort[..], i, chs[i].(opMax := Shrunk(chs[i].opMax, |chs[i].ops|)));
      channels[i].Shrink();
      chs := chs[i := chs[i].(opMax := Shrunk(chs[i].opMax, |chs[i].ops|))];
      Repr := Repr + {channels[i].chanop};
      Refreshed(i);
    }

    // -------- operations on a member channel reached through a pointer

    /** DB_write_end. */
    method Close(c: Channel)
      requires Valid() && Has(c) && c in Repr && c.chanop in Repr
      modifies this`chs, c.chanop
      ensures Valid() && c.Valid() && Has(c) && MapStep(old(chs), chs, IrcFold(c.name), old(SortChan(c.View())))
    {
      ghost var i := PlaceOf(c);
      assert Slot(i);
      UpdateIndexed(chs, subsort[..], i, SortChan(chs[i]));
      c.WriteEnd();
      chs := chs[i := SortChan(chs[i])];
      Refreshed(i);
    }

    method Register(c: Channel, user: CString, host: CString, d: nat)
      requires Valid() && Has(c) && c in Repr && c.chanop in Repr && c.Valid() && d < DAYSAMPLES
      modifies this`chs, this`Repr, c, c.chanop
      ensures Valid() && fresh(Repr - old(Repr)) && old(Repr) <= Repr
      ensures Has(c) && MapStep(old(chs), chs, IrcFold(c.name), old(RegisterChan(c.View(), user, host, d)))
    {
      ghost var i := PlaceOf(c);
      assert Slot(i);
      UpdateIndexed(chs, subsort[..], i, RegisterChan(chs[i], user, host, d));
      c.RegisterOp(user, host, d);
      chs := chs[i := RegisterChan(chs[i], user, host, d)];
      Repr := Repr + {c.chanop};
      Refreshed(i);
    }

    method AddNote(c: Channel, note: Note) returns (count: nat)
      requires Valid() && Has(c) && c in Repr && c.channote in Repr && c.Valid()
      modifies this`chs, c, c.channote
      ensures Valid() && Has(c) && MapStep(old(chs), chs, IrcFold(c.name), old(AddNoteChan(c.View(), note)))
      ensures count == old(AddNoteChan(c.View(), note).noteCount)
    {
      ghost var i := PlaceOf(c);
      assert Slot(i);
      UpdateIndexed(chs, subsort[..], i, AddNoteChan(chs[i], note));
      count := c.AddNote(note);
      chs := chs[i := AddNoteChan(chs[i], note)];
      Refreshed(i);
    }

    method DelNote(c: Channel, number: int) returns (ok: bool)
      requires Valid() && Has(c) && c in Repr && c.channote in Repr && c.Valid()
      modifies this`chs, c, c.channote
      ensures Valid() && Has(c) && MapStep(old(chs), chs, IrcFold(c.name), old(DelNoteChan(c.View(), number)))
      ensures ok <==> 1 <= number <= |NoteList(old(c.View()).notes)|
    {
      ghost var i := PlaceOf(c);
      assert Slot(i);
      UpdateIndexed(chs, subsort[..], i, DelNoteChan(chs[i], number));
      ok := c.DelNote(number);
      chs := chs[i := DelNoteChan(chs[i], number)];
      Refreshed(i);
    }

    method SetFlag(c: Channel, flag: nat)
      requires Valid() && Has(c) && c in Repr && c.Valid()
      modifies this`chs, c
      ensures Valid() && Has(c) && MapStep(old(chs), chs, IrcFold(c.name), old(c.View().(flag := flag)))
    {
      ghost var i := PlaceOf(c);
      assert Slot(i);
      UpdateIndexed(chs, subsort[..], i, chs[i].(flag := flag));
      c.flag := flag;
      chs := chs[i := chs[i].(flag := flag)];
      Refreshed(i);
    }

    lemma ValidValues()
      requires Valid()
      ensures AllValid(chs) && DistinctNames(chs)
    {
      forall i | 0 <= i < |chs| ensures ValidChan(chs[i]) { assert Slot(i); }
    }

    method ClearAll(d: nat)
      requires Valid() && d < DAYSAMPLES
      modifies Repr
      ensures Valid() && Repr == old(Repr) && curSize == old(curSize)
      ensures AllValid(old(chs)) && chs == ClearedAll(old(chs), d)
    {
      ghost var c0 := chs;
      ValidValues();
      for j := 0 to curSize
        invariant Valid() && Repr == old(Repr) && curSize == old(curSize)
        invariant forall i :: 0 <= i < |c0| ==> chs[i] == if i < j then ClearChan(c0[i], d) else c0[i]
      {
        hide ClearChan, ValidChan;
        assert Slot(j) && c0[j] == chs[j];
        ClearAt(j, d);
      }
    }

    method SortAll(ghost d: nat, ghost c0: seq<Chan>)
      requires Valid() && d < DAYSAMPLES && AllValid(c0) && chs == ClearedAll(c0, d)
      modifies Repr
      ensures Valid() && Repr == old(Repr) && curSize == old(curSize) == |c0|
      ensures chs == Resorted(c0, d)
    {
      for j := 0 to curSize
        invariant Valid() && Repr == old(Repr) && curSize == old(curSize)
        invariant forall i :: 0 <= i < |c0| ==>
                    chs[i] == if i < j then SortChan(ClearChan(c0[i], d)) else ClearChan(c0[i], d)
      {
        hide ClearChan, ValidChan, SortChan;
        assert Slot(j);
        SortAt(j);
      }
    }

    /** One cleanup step at place tj: cut the non-scorers, then delete the channel or shrink its op array. */
    method CleanUp(tj: nat) returns (gone: bool)
      requires Valid() && tj < curSize && Descending(chs[tj].ops)
      modifies Repr
      ensures Valid() && fresh(Repr - old(Repr)) && old(Repr) <= Repr
      ensures var m := old(chs)[tj];
              var cut := m.(ops := Positive(m.ops));
              && gone == !Keeps(cut)
              && chs == if gone then RemovedAt(old(chs), tj)
                        else old(chs)[tj := cut.(opMax := Shrunk(cut.opMax, |cut.ops|))]
    {
      assert Slot(tj);
      CutAt(tj);
      assert Slot(tj);
      gone := false;
      if channels[tj].opCount == 0 {
        var count := CountNotes(channels[tj].channote);
        if channels[tj].flag == 0 && count == 0 {
          assert Id(chs[tj]) in ToMap(chs);
          ghost var c := chs[tj];
          gone := Delete(channels[tj].name);
          CutThenRemoved(old(chs), tj, c, chs);
        }
      } else {
        ShrinkAt(tj);
      }
    }

    /** The cleanup step for original channel j, with the first j channels done and found at [..tj]. */
    method CleanRound(tj: nat, ghost c0: seq<Chan>, ghost d: nat, ghost j: nat) returns (gone: bool)
      requires Valid() && j < |c0| && Halfway(c0, chs, d, j, tj)
      modifies Repr
      ensures Valid() && fresh(Repr - old(Repr)) && old(Repr) <= Repr
      ensures Halfway(c0, chs, d, j + 1, if gone then tj else tj + 1)
    {
      hide RollChan, Keeps, ValidChan, SortChan, ClearChan, Rollover, Positive, Shrunk;
      assert chs[tj] == Resorted(c0, d)[j];
      CutIsRolled(c0[j], d);
      KeepsRolled(c0[j], d);
      gone := CleanUp(tj);
      CleanupStep(c0, old(chs), d, j, tj, chs);
    }

    /** CE_update_day: null the new day, resort, then clean up, deleting while iterating. */
    method UpdateDay(d: nat)
      requires Valid() && d < DAYSAMPLES
      modifies Repr
      ensures Valid() && fresh(Repr - old(Repr)) && old(Repr) <= Repr
      ensures AllValid(old(chs)) && chs == Rollover(old(chs), d)
    {
      hide *;
      ghost var c0 := chs;
      ValidValues();
      ClearAll(d);
      SortAll(d, c0);
      CleanAll(c0, d);
    }

    method CleanAll(ghost c0: seq<Chan>, ghost d: nat)
      requires Valid() && d < DAYSAMPLES && AllValid(c0) && chs == Resorted(c0, d) && curSize == |c0|
      modifies Repr
      ensures Valid() && fresh(Repr - old(Repr)) && old(Repr) <= Repr
      ensures chs == Rollover(c0, d)
    {
      hide *;
      HalfwayStart(c0, d);
      var tc, r, j := curSize, 0, 0;
      while j < tc
        invariant 0 <= r <= j <= tc == |c0|
        invariant Valid() && fresh(Repr - old(Repr)) && old(Repr) <= Repr
        invariant Halfway(c0, chs, d, j, j - r)
      {
        var gone := CleanRound(j - r, c0, d, j);
        if gone { r := r + 1; }
        j := j + 1;
      }
      HalfwayEnd(c0, chs, d, tc - r);
    }
  }

  // ---------------------------------------------------------------- in-place array steps

  lemma CutThenRemoved(chs: seq<Chan>, i: nat, c: Chan, r: seq<Chan>)
    requires i < |chs| && r == RemovedAt(chs[i := c], i)
    ensures r == RemovedAt(chs, i)
  {
  }

  method Enlarged(a: array<Channel?>, n: nat) returns (tc: array<Channel?>)
    requires n <= a.Length
    ensures fresh(tc) && tc.Length == a.Length + DBCACHEINCREASE
    ensures forall i :: 0 <= i < n ==> tc[i] == a[i]
  {
    tc := new Channel?[a.Length + DBCACHEINCREASE](_ => null);
    for j := 0 to n
      invariant forall i :: 0 <= i < j ==> tc[i] == a[i]
    {
      tc[j] := a[j];
    }
  }

  /** Opens a gap at r, fills it with a new channel and moves the later groups up by one. */
  method PlaceNew(a: array<Channel?>, sub: array<int>, r: nat, n: nat, name: CString) returns (c: Channel)
    requires r <= n < a.Length && sub.Length == 256 && (a as object) != sub
    modifies a, sub
    ensures fresh(c) && fresh(c.chanop) && fresh(c.channote) && c.Valid() && c.View() == NewChan(name)
    ensures forall j :: 0 <= j < r ==> a[j] == old(a[j])
    ensures forall j :: r < j <= n ==> a[j] == old(a[j - 1])
    ensures a[r] == c && sub[..] == Bumped(old(sub[..]), CeHash(name))
  {
    hide Bumped, NewChan, ValidChan, CeHash;
    ShiftUp(a, r, n);
    IncrementFrom(sub, CeHash(name));
    c := new Channel(name);
    a[r] := c;
  }

  method ShiftUp(a: array<Channel?>, r: nat, n: nat)
    requires r <= n < a.Length
    modifies a
    ensures forall j :: 0 <= j < r ==> a[j] == old(a[j])
    ensures forall j :: r < j <= n ==> a[j] == old(a[j - 1])
  {
    ghost var was := a[..];
    var j := n;
    while j > r
      invariant r <= j <= n
      invariant forall k :: 0 <= k <= j ==> a[k] == was[k]
      invariant forall k :: j < k <= n ==> a[k] == was[k - 1]
    {
      a[j] := a[j - 1];
      j := j - 1;
    }
  }

  method ShiftDownFrom(a: array<Channel?>, i: nat, n: nat)
    requires i < n <= a.Length
    modifies a
    ensures forall j :: 0 <= j < i ==> a[j] == old(a[j])
    ensures forall j :: i <= j < n - 1 ==> a[j] == old(a[j + 1])
  {
    ghost var was := a[..];
    var j := i + 1;
    while j < n
      invariant i < j <= n
      invariant forall k :: 0 <= k < i || j <= k < n ==> a[k] == was[k]
      invariant forall k :: i <= k < j - 1 ==> a[k] == was[k + 1]
    {
      a[j - 1] := a[j];
      j := j + 1;
    }
  }

  method IncrementFrom(sub: array<int>, h: nat)
    requires sub.Length == 256 && h < 256
    modifies sub
    ensures sub[..] == Bumped(old(sub[..]), h)
  {
    ghost var was := sub[..];
    for j := h + 1 to 256
      invariant forall k :: 0 <= k < 256 ==> sub[k] == if h < k < j then was[k] + 1 else was[k]
    {
      sub[j] := sub[j] + 1;
    }
  }

  method DecrementFrom(sub: array<int>, h: nat)
    requires sub.Length == 256 && h < 256
    modifies sub
    ensures sub[..] == Dropped(old(sub[..]), h)
  {
    ghost var was := sub[..];
    for j := h + 1 to 256
      invariant forall k :: 0 <= k < 256 ==> sub[k] == if h < k < j then was[k] - 1 else was[k]
    {
      sub[j] := sub[j] - 1;
    }
  }
}
