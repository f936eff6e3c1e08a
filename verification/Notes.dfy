/** The eight note slots of a channel: an array with holes that stands for a newest-first list. */
module Notes {
  import opened CStrings

  const MAXNOTECOUNT := 8
  const MAXNOTESIZE: nat := 550

  datatype Note = Note(id: nat, timestamp: nat, text: CString)

  /** The note as its buffer holds it. */
  function Fitted(n: Note): Note {
    n.(text := Cut(n.text, MAXNOTESIZE))
  }

  type Slots = s: seq<Option<Note>> | |s| == MAXNOTECOUNT witness seq(MAXNOTECOUNT, _ => None)

  /** The notes a reader sees, slot order, holes skipped. */
  ghost function NoteList(s: seq<Option<Note>>): (r: seq<Note>)
    ensures |r| <= |s|
  {
    if s == [] then []
    else (if s[0].Some? then [s[0].value] else []) + NoteList(s[1..])
  }

  /** The first hole, or the last slot when there is none. */
  ghost predicate Gap(s: Slots, g: nat) {
    g < MAXNOTECOUNT
    && (forall i :: 0 <= i < g ==> s[i].Some?)
    && (s[g].None? || g == MAXNOTECOUNT - 1)
  }

  ghost function FirstGap(s: Slots): (g: nat)
    ensures Gap(s, g)
  {
    GapFrom(s, 0)
  }

  ghost function GapFrom(s: Slots, i: nat): (g: nat)
    requires i < MAXNOTECOUNT && forall j :: 0 <= j < i ==> s[j].Some?
    ensures Gap(s, g)
    decreases MAXNOTECOUNT - i
  {
    if s[i].None? || i == MAXNOTECOUNT - 1 then i else GapFrom(s, i + 1)
  }

  lemma NoteListHead(s: seq<Option<Note>>)
    requires s != []
    ensures NoteList(s) == (if s[0].Some? then [s[0].value] else []) + NoteList(s[1..])
  {
  }

  lemma NoNotes()
    ensures NoteList([]) == []
  {
  }

  lemma {:induction false} NoteListAppend(a: seq<Option<Note>>, b: seq<Option<Note>>)
    ensures NoteList(a + b) == NoteList(a) + NoteList(b)
  {
    hide NoteList;
    if a == [] {
      assert a + b == b;
      NoNotes();
    } else {
      var h, c := if a[0].Some? then [a[0].value] else [], a + b;
      assert c[0] == a[0] && c[1..] == a[1..] + b;
      NoteListHead(a);
      NoteListHead(c);
      NoteListAppend(a[1..], b);
    }
  }

  lemma {:induction false} NoteListFull(s: seq<Option<Note>>)
    requires forall i :: 0 <= i < |s| ==> s[i].Some?
    ensures |NoteList(s)| == |s| && forall i :: 0 <= i < |s| ==> NoteList(s)[i] == s[i].value
  {
    if s != [] { NoteListFull(s[1..]); }
  }

  /** The slots after a new note is pushed in front, filling the gap. */
  ghost function Pushed(s: Slots, g: nat, n: Note): (r: Slots)
    requires g < MAXNOTECOUNT
  {
    [Some(n)] + s[..g] + s[g + 1..]
  }

  /** Adding pushes onto the list; only a ninth note costs one, and it costs the oldest. */
  lemma PushedList(s: Slots, g: nat, n: Note)
    requires Gap(s, g)
    ensures NoteList(Pushed(s, g, n)) ==
            var all := [n] + NoteList(s); if |all| <= MAXNOTECOUNT then all else all[..MAXNOTECOUNT]
  {
    var r := Pushed(s, g, n);
    assert r == ([Some(n)] + s[..g]) + s[g + 1..];
    NoteListAppend([Some(n)] + s[..g], s[g + 1..]);
    NoteListAppend([Some(n)], s[..g]);
    assert NoteList([Some(n)]) == [n];
    assert s == s[..g] + [s[g]] + s[g + 1..];
    NoteListAppend(s[..g] + [s[g]], s[g + 1..]);
    NoteListAppend(s[..g], [s[g]]);
    NoteListFull(s[..g]);
    if s[g].Some? {
      assert s[g + 1..] == [];
      assert NoteList([s[g]]) == [s[g].value];
    } else {
      assert NoteList([s[g]]) == [];
      assert NoteList(s) == NoteList(s[..g]) + NoteList(s[g + 1..]);
      assert |NoteList(s[g + 1..])| <= MAXNOTECOUNT - g - 1;
    }
  }

  /** Slot i holds the count-th note (counting from one). */
  ghost predicate Holds(s: Slots, i: nat, count: nat) {
    i < MAXNOTECOUNT && s[i].Some? && |NoteList(s[..i])| == count - 1
  }

  ghost predicate HasNote(s: Slots, count: int) {
    count >= 1 && exists i :: Holds(s, i, count)
  }

  ghost function SlotOf(s: Slots, count: int): (i: nat)
    requires HasNote(s, count)
    ensures Holds(s, i, count)
  {
    var i :| Holds(s, i, count); i
  }

  lemma HoldsUnique(s: Slots, i: nat, j: nat, count: nat)
    requires Holds(s, i, count) && Holds(s, j, count)
    ensures i == j
  {
    if i < j { ListGrows(s, i, j); }
    if j < i { ListGrows(s, j, i); }
  }

  lemma ListGrows(s: Slots, i: nat, j: nat)
    requires i < j <= MAXNOTECOUNT && s[i].Some?
    ensures |NoteList(s[..i])| < |NoteList(s[..j])|
  {
    assert s[..j] == s[..i] + [s[i]] + s[i + 1..j];
    NoteListAppend(s[..i] + [s[i]], s[i + 1..j]);
    NoteListAppend(s[..i], [s[i]]);
    assert NoteList([s[i]]) == [s[i].value];
  }

  /** The slots after note number count, counting from one, is taken out; a hole stays behind. */
  ghost function Deleted(s: Slots, count: int): Slots {
    if HasNote(s, count) then s[SlotOf(s, count) := None] else s
  }

  /** Notes are numbered without gaps, and deleting number count removes that element of the list. */
  lemma DeletedList(s: Slots, count: int)
    ensures HasNote(s, count) <==> 1 <= count <= |NoteList(s)|
    ensures HasNote(s, count) ==> NoteList(Deleted(s, count)) == NoteList(s)[..count - 1] + NoteList(s)[count..]
  {
    if HasNote(s, count) {
      HoldsNote(s, SlotOf(s, count), count);
    }
    if 1 <= count <= |NoteList(s)| {
      assert s[..MAXNOTECOUNT] == s;
      FindHolder(s, count, MAXNOTECOUNT);
    }
  }

  lemma {:induction false} FindHolder(s: Slots, count: nat, n: nat)
    requires n <= MAXNOTECOUNT && 1 <= count <= |NoteList(s[..n])|
    ensures exists i :: Holds(s, i, count)
  {
    var m := n - 1;
    assert s[..n] == s[..m] + [s[m]];
    NoteListAppend(s[..m], [s[m]]);
    if count <= |NoteList(s[..m])| {
      FindHolder(s, count, m);
    } else {
      assert NoteList([s[m]]) == if s[m].Some? then [s[m].value] else [];
      assert Holds(s, m, count);
    }
  }

  lemma HoldsNote(s: Slots, i: nat, count: nat)
    requires Holds(s, i, count)
    ensures 1 <= count <= |NoteList(s)| && NoteList(s)[count - 1] == s[i].value
    ensures NoteList(s[i := None]) == NoteList(s)[..count - 1] + NoteList(s)[count..]
  {
    var x, b := [s[i]], s[i + 1..];
    assert s == s[..i] + x + b && s[i := None] == s[..i] + [None] + b;
    NoteListAppend(s[..i] + x, b);
    NoteListAppend(s[..i], x);
    NoteListAppend(s[..i] + [None], b);
    NoteListAppend(s[..i], [None]);
    assert NoteList(x) == [s[i].value];
    assert NoteList([None]) == [];
  }

  /** Squeezing the holes out, as a save followed by a load does, leaves the list alone. */
  lemma CompactList(l: seq<Note>)
    requires |l| <= MAXNOTECOUNT
    ensures NoteList(Compact(l)) == l
  {
    NoteListAppend(seq(|l|, i requires 0 <= i < |l| => Some(l[i])), seq(MAXNOTECOUNT - |l|, _ => None));
    NoteListFull(seq(|l|, i requires 0 <= i < |l| => Some(l[i])));
    NoHoles(MAXNOTECOUNT - |l|);
  }

  lemma {:induction false} NoHoles(n: nat)
    ensures NoteList(seq(n, _ => None)) == []
  {
    if n > 0 {
      NoHoles(n - 1);
      assert seq(n, _ => None)[1..] == seq<Option<Note>>(n - 1, _ => None);
    }
  }

  /** The notes at the front, the free slots behind them. */
  function Compact(l: seq<Note>): Slots
    requires |l| <= MAXNOTECOUNT
  {
    seq(|l|, i requires 0 <= i < |l| => Some(l[i])) + seq(MAXNOTECOUNT - |l|, _ => None)
  }
}
