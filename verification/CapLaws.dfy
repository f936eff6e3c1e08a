/** Capability requests in plain terms: how a list is read, and what is granted. */
module CapLaws {
  import opened CStrings
  import opened CapText
  import opened Cap

  // ---------------------------------------------------------------- how a list is read

  /** Space, tab, line feed, vertical tab, form feed and carriage return. */
  predicate Blank(b: byte) {
    b == 32 || b == 9 || b == 10 || b == 11 || b == 12 || b == 13
  }

  /** A word as it can stand in a list: not empty, and without blanks. */
  ghost predicate Plain(w: CString) {
    w != [] && forall i :: 0 <= i < |w| ==> !Blank(w[i])
  }

  /** An item as a client writes it: a minus before a capability to be given up. */
  function Written(i: Item): CString {
    (if i.neg then [0x2d] else []) + i.word
  }

  /** One after the other, with a blank in between. */
  ghost function WrittenList(items: seq<Item>, b: byte): CString
    requires b != 0
  {
    if items == [] then []
    else if |items| == 1 then Written(items[0]) else Written(items[0]) + [b] + WrittenList(items[1..], b)
  }

  ghost predicate Readable(items: seq<Item>) {
    forall i :: 0 <= i < |items| ==> Plain(items[i].word) && (items[i].neg || items[i].word[0] != 0x2d)
  }

  lemma {:induction false} PlainWord(w: CString, rest: CString)
    requires (forall i :: 0 <= i < |w| ==> !Blank(w[i])) && (rest != [] ==> Blank(rest[0]))
    ensures WordLength(w + rest) == |w|
  {
    if w == [] {
      assert w + rest == rest;
    } else {
      assert (w + rest)[1..] == w[1..] + rest;
      PlainWord(w[1..], rest);
    }
  }

  lemma TrimPlain(s: CString)
    requires s == [] || !Blank(s[0])
    ensures Trim(s) == s
  {
  }

  lemma TrimBlank(s: CString, b: byte)
    requires Blank(b) && (s == [] || !Blank(s[0]))
    ensures Trim([b] + s) == s
  {
    assert ([b] + s)[1..] == s;
    TrimPlain(s);
  }

  lemma FirstBody(i: Item, rest: CString)
    requires Plain(i.word) && (i.neg || i.word[0] != 0x2d)
    ensures var s: CString := Written(i) + rest; (Negative(s) <==> i.neg) && Body(s) == i.word + rest
  {
    hide Trim;
    var s: CString := Written(i) + rest;
    assert s[0] == if i.neg then 0x2d else i.word[0];
    TrimPlain(s);
    assert i.neg ==> s[1..] == i.word + rest;
  }

  lemma WordAndRest(w: CString, rest: CString)
    requires WordLength(w + rest) == |w|
    ensures Word(w + rest) == w && (w + rest)[WordLength(w + rest)..] == rest
  {
    hide WordLength;
    assert (w + rest)[..|w|] == w && (w + rest)[|w|..] == rest;
  }

  lemma FirstRead(i: Item, rest: CString)
    requires Plain(i.word) && (i.neg || i.word[0] != 0x2d) && (rest != [] ==> Blank(rest[0]))
    ensures var s: CString := Written(i) + rest;
            && (Negative(s) <==> i.neg) && Body(s) == i.word + rest && Word(Body(s)) == i.word && Rest(s) == Trim(rest)
  {
    FirstBody(i, rest);
    PlainWord(i.word, rest);
    WordAndRest(i.word, rest);
    hide Trim, Negative, Body, WordLength, Word, Written, Plain;
  }

  /** What a client writes is what the server reads. */
  lemma {:induction false} ItemsRead(items: seq<Item>, b: byte)
    requires items != [] && Readable(items) && Blank(b)
    ensures Items(WrittenList(items, b)) == items
  {
    hide Trim, Body, Negative, Word, Plain, Written, Rest;
    var i, t := items[0], items[1..];
    if t == [] {
      assert Written(i) + [] == WrittenList(items, b);
      FirstRead(i, []);
      EmptyTrim();
    } else {
      var w := WrittenList(t, b);
      var rest: CString := [b] + w;
      assert Written(i) + rest == WrittenList(items, b);
      FirstRead(i, rest);
      ItemsRead(t, b);
      ListStarts(t, b);
      TrimBlank(w, b);
    }
  }

  lemma EmptyTrim()
    ensures Trim([]) == []
  {
  }

  lemma ListStarts(items: seq<Item>, b: byte)
    requires items != [] && Readable(items) && Blank(b)
    ensures WrittenList(items, b) != [] && !Blank(WrittenList(items, b)[0])
  {
  }

  // ---------------------------------------------------------------- what is granted

  /** Entry j of the table is the one named. */
  ghost predicate Means(t: seq<Capability>, j: nat, i: Item) {
    j < |t| && IrcFold(t[j].name) == IrcFold(i.word)
  }

  /** A known capability that may be taken, or given up. */
  ghost predicate Granted(t: seq<Capability>, i: Item) {
    exists j: nat :: Means(t, j, i) && if i.neg then !t[j].sticky else !t[j].prohibit
  }

  lemma MeansEntry(t: seq<Capability>, j: nat, i: Item)
    requires TableOk(t) && Means(t, j, i)
    ensures Entry(t, i) == Some(t[j])
  {
    FoldsAgree(t[j].name, i.word);
    LookupIs(t, i.word, j);
  }

  lemma EntryMeans(t: seq<Capability>, i: Item) returns (j: nat)
    requires Entry(t, i).Some?
    ensures Means(t, j, i) && Entry(t, i) == Some(t[j])
  {
    j := Lookup(t, i.word).value;
    FoldsAgree(t[j].name, i.word);
  }

  /** An item is accepted exactly if its capability may be had, or given up. */
  lemma GrantedExact(t: seq<Capability>, i: Item)
    requires TableOk(t)
    ensures Acceptable(t, i) <==> Granted(t, i)
  {
    hide TableOk, Fold, IrcFold;
    if Entry(t, i).Some? {
      var j := EntryMeans(t, i);
      forall k: nat | Means(t, k, i) ensures t[k] == t[j] { MeansEntry(t, k, i); }
    } else {
      forall k: nat ensures !Means(t, k, i) { if Means(t, k, i) { MeansEntry(t, k, i); } }
    }
  }

  /** Item i is about this bit. */
  ghost predicate About(t: seq<Capability>, i: Item, bit: nat) {
    exists j: nat :: Means(t, j, i) && t[j].bit == bit
  }

  /** Item k is the last one about this bit. */
  ghost predicate LastAbout(t: seq<Capability>, items: seq<Item>, bit: nat, k: nat) {
    k < |items| && About(t, items[k], bit) && forall m :: k < m < |items| ==> !About(t, items[m], bit)
  }

  lemma AboutEntry(t: seq<Capability>, i: Item, bit: nat)
    requires TableOk(t)
    ensures About(t, i, bit) <==> Entry(t, i).Some? && Entry(t, i).value.bit == bit
  {
    hide TableOk, Fold, IrcFold;
    if Entry(t, i).Some? {
      var j := EntryMeans(t, i);
      forall k: nat | Means(t, k, i) ensures t[k] == t[j] { MeansEntry(t, k, i); }
    } else {
      forall k: nat ensures !Means(t, k, i) { if Means(t, k, i) { MeansEntry(t, k, i); } }
    }
  }

  lemma {:induction false} LastWordExact(t: seq<Capability>, items: seq<Item>, bit: nat)
    requires TableOk(t)
    ensures LastWord(t, items, bit) == None ==> forall k: nat :: !LastAbout(t, items, bit, k)
    ensures forall k: nat :: LastAbout(t, items, bit, k) ==> LastWord(t, items, bit) == Some(!items[k].neg)
    ensures LastWord(t, items, bit).Some? ==> exists k: nat :: LastAbout(t, items, bit, k)
  {
    hide TableOk, About, Entry;
    if items != [] {
      var n := |items| - 1;
      var p := items[..n];
      LastWordExact(t, p, bit);
      AboutEntry(t, items[n], bit);
      if About(t, items[n], bit) {
        assert LastAbout(t, items, bit, n);
      } else {
        forall k: nat ensures LastAbout(t, items, bit, k) <==> LastAbout(t, p, bit, k) {}
      }
    }
  }

  ghost predicate AllGranted(t: seq<Capability>, items: seq<Item>) {
    forall k :: 0 <= k < |items| ==> Granted(t, items[k])
  }

  /** The bit must be acknowledged before it is in force. */
  ghost predicate Deferred(t: seq<Capability>, bit: nat) {
    exists j :: 0 <= j < |t| && t[j].bit == bit && t[j].proto
  }

  /**
   * A request: if every item is granted, each capability named is held, and unless it waits for an
   * acknowledgement is in force, as its last mention says; if not, nothing changes.
   */
  lemma RequestExact(t: seq<Capability>, conn: Conn, list: Option<CString>, bit: nat)
    requires TableOk(t)
    ensures var r, items := Requested(t, conn, list), ItemsOf(list);
            if AllGranted(t, items)
            then && (forall k: nat :: LastAbout(t, items, bit, k) ==>
                       && (bit in r.client <==> !items[k].neg)
                       && (bit in r.active <==> if Deferred(t, bit) then bit in conn.active else !items[k].neg))
                 && ((forall k: nat :: !LastAbout(t, items, bit, k)) ==>
                       (bit in r.client <==> bit in conn.client) && (bit in r.active <==> bit in conn.active))
            else r == conn
  {
    hide TableOk, Acceptable, Granted, LastWord, AskAll, LastAbout;
    var items := ItemsOf(list);
    forall k | 0 <= k < |items| ensures Acceptable(t, items[k]) <==> Granted(t, items[k]) { GrantedExact(t, items[k]); }
    LastWordExact(t, items, bit);
    if AllAcceptable(t, items) { LastWordCounts(t, items, conn, bit); }
  }

  // ---------------------------------------------------------------- acknowledged and cleared

  /** Some item with this sign is about the bit. */
  ghost predicate Mentions(t: seq<Capability>, items: seq<Item>, bit: nat, neg: bool) {
    exists k :: 0 <= k < |items| && items[k].neg == neg && About(t, items[k], bit)
  }

  lemma MentionsNamed(t: seq<Capability>, items: seq<Item>, bit: nat, neg: bool)
    requires TableOk(t)
    ensures Mentions(t, items, bit, neg) <==> Named(t, items, bit, neg)
  {
    hide TableOk, About, Entry;
    forall k | 0 <= k < |items|
      ensures About(t, items[k], bit) <==> Entry(t, items[k]).Some? && Entry(t, items[k]).value.bit == bit
    {
      AboutEntry(t, items[k], bit);
    }
  }

  /** An acknowledgement brings what is held into force, and takes what is not held out of it; it changes no more. */
  lemma AcknowledgeExact(t: seq<Capability>, conn: Conn, list: Option<CString>, bit: nat)
    requires TableOk(t)
    ensures var r, items := Acked(t, conn, list), ItemsOf(list);
            && r.client == conn.client
            && (bit in conn.client ==> (bit in r.active <==> bit in conn.active || Mentions(t, items, bit, false)))
            && (bit !in conn.client ==> (bit in r.active <==> bit in conn.active && !Mentions(t, items, bit, true)))
  {
    hide TableOk, AckAll, Mentions, Named;
    AckCounts(t, ItemsOf(list), conn, bit);
    MentionsNamed(t, ItemsOf(list), bit, false);
    MentionsNamed(t, ItemsOf(list), bit, true);
  }

  /** The capability with this bit may be cleared. */
  ghost predicate Loose(t: seq<Capability>, bit: nat) {
    exists j :: 0 <= j < |t| && t[j].bit == bit && !t[j].sticky
  }

  /** Clearing leaves only what is sticky, or not in the table; in force stay also those that are only acknowledged. */
  lemma ClearExact(t: seq<Capability>, conn: Conn, r: Conn, bit: nat)
    requires ClearedTo(t, conn, r)
    ensures bit in r.client <==> bit in conn.client && !Loose(t, bit)
    ensures bit in r.active <==> bit in conn.active && (bit !in conn.client || !Loose(t, bit) || Deferred(t, bit))
  {
  }
}
