/** The hostmask list of an account, and its server list, which is kept the same way. */
module AccountLists {
  import opened CStrings
  import opened Tokens
  import opened CommaList

  const SCRATCH := 255   // a scratch buffer of LIST_LENGTH bytes has room for this many characters

  /** What a membership test sees. */
  ghost function Seen(s: CString): seq<CString> {
    Split(Cut(s, SCRATCH), COMMA)
  }

  /** Adding to the text. */
  ghost function Added(s: CString, m: CString): CString {
    if |s| + |m| + 1 > LIST_LENGTH || m in Seen(s) then s
    else if s == [] then m
    else s + [COMMA] + m
  }

  /** Adding back everything but m. */
  ghost function Readded(ts: seq<CString>, m: CString, s: CString): CString {
    if ts == [] then s
    else Readded(ts[1..], m, if ts[0] == m then s else Added(s, ts[0]))
  }

  lemma {:induction false} SplitCount(s: CString, d: byte)
    ensures 2 * |Split(s, d)| <= |s| + 1
    decreases |s|
  {
    if s != [] {
      if s[0] == d {
        SplitCount(s[1..], d);
      } else {
        var n := Until(s, d);
        if n < |s| {
          SplitCount(s[n + 1..], d);
          assert s[n..][1..] == s[n + 1..];
        }
      }
    }
  }

  method ReadString(buf: array<byte>, o: nat, ghost t: CString) returns (r: CString)
    requires Holds(buf, o, t)
    ensures r == t
  {
    var i := o;
    assert forall k :: o <= k < o + |t| ==> buf[k] == t[k - o] by {
      assert forall k :: o <= k < o + |t| ==> buf[k] == buf[o..o + |t|][k - o];
    }
    assert |t| > 0 ==> buf[o] == t[0] != 0;
    while buf[i] != 0
      invariant o <= i <= o + |t| && (buf[i] == 0 <==> i == o + |t|)
      decreases o + |t| - i
    {
      i := i + 1;
      assert i < o + |t| ==> buf[i] == t[i - o] != 0;
    }
    assert buf[o..i] == t;
    r := buf[o..i];
  }

  /** Tokenizes a scratch copy of the text. */
  method ScratchTokens(s: CString) returns (ts: seq<CString>)
    ensures ts == Seen(s)
  {
    var c := Cut(s, SCRATCH);
    var masks := new byte[LIST_LENGTH](i => if 0 <= i < |c| then c[i] else 0);
    SplitCount(c, COMMA);
    assert masks[..|c|] == c;
    var ok, parv := Tokenize(masks, COMMA, c);
    assert ok;
    ts := [];
    while |ts| < |parv|
      invariant |ts| <= |parv| && Stored(masks, parv, Split(c, COMMA), |c| + 1) && ts == Split(c, COMMA)[..|ts|]
      decreases |parv| - |ts|
    {
      var t := ReadString(masks, parv[|ts|], Split(c, COMMA)[|ts|]);
      ts := ts + [t];
    }
  }

  class ListField {
    var text: CString

    constructor ()
      ensures text == []
    {
      text := [];
    }

    /** ocf_user_has_hostmask, ocf_user_has_other_server */
    method Has(m: CString) returns (r: bool)
      ensures r <==> m in Seen(text)
    {
      if |text| == 0 { return false; }
      var ts := ScratchTokens(text);
      for i := 0 to |ts|
        invariant m !in ts[..i]
      {
        if m == ts[i] { return true; }
      }
      assert ts[..|ts|] == ts;
      return false;
    }

    /** ocf_user_add_hostmask, ocf_user_add_server */
    method Add(m: CString) returns (r: bool)
      modifies this
      ensures text == Added(old(text), m)
      ensures r <==> |old(text)| + |m| + 1 <= LIST_LENGTH && m !in Seen(old(text))
    {
      if |text| + |m| + 1 > LIST_LENGTH { return false; }
      var has := Has(m);
      if has { return false; }
      if |text| == 0 {
        text := m;
        return true;
      }
      text := text + [COMMA] + m;
      return true;
    }

    /** ocf_user_del_hostmask, ocf_user_del_server */
    method Del(m: CString) returns (r: bool)
      modifies this
      ensures r <==> m in Seen(old(text))
      ensures text == Removed(old(text), m)
    {
      r := Has(m);
      if !r { return; }
      var ts := ScratchTokens(text);
      text := [];
      assert ts[0..] == ts;
      for i := 0 to |ts|
        invariant Readded(ts[i..], m, text) == Readded(ts, m, [])
      {
        assert ts[i..][1..] == ts[i + 1..];
        if m != ts[i] { var _ := Add(ts[i]); }
      }
    }
  }

  /** Deleting from the text. */
  ghost function Removed(s: CString, m: CString): CString {
    if m in Seen(s) then Readded(Seen(s), m, []) else s
  }

  // ---------------------------------------------------------------- what the text stands for

  /** The text is a list of different non-empty items without commas. */
  ghost predicate Listing(items: seq<CString>) {
    Pieces(items, COMMA) && forall i, j :: 0 <= i < j < |items| ==> items[i] != items[j]
  }

  ghost function Text(items: seq<CString>): CString {
    Join(items, COMMA)
  }

  ghost function Without(items: seq<CString>, m: CString): seq<CString> {
    if items == [] then [] else (if items[0] == m then [] else [items[0]]) + Without(items[1..], m)
  }

  lemma {:induction false} JoinSnoc(ts: seq<CString>, t: CString, d: byte)
    requires d != 0
    ensures Join(ts + [t], d) == if ts == [] then t else Join(ts, d) + [d] + t
  {
    if ts != [] {
      JoinSnoc(ts[1..], t, d);
      assert (ts + [t])[1..] == ts[1..] + [t];
    }
  }

  /** Up to 255 characters a membership test sees exactly the items. */
  lemma SeenItems(items: seq<CString>)
    requires Pieces(items, COMMA) && |Text(items)| <= SCRATCH
    ensures Seen(Text(items)) == items
  {
    SplitJoin(items, COMMA);
  }

  /** Adding appends the item if it is new and there is room, and otherwise changes nothing. */
  lemma AddedItem(items: seq<CString>, m: CString)
    requires Listing(items) && |Text(items)| <= LIST_LENGTH && Piece(m, COMMA)
    ensures if m !in items && |Text(items)| + |m| + 1 <= LIST_LENGTH
            then Added(Text(items), m) == Text(items + [m]) && Listing(items + [m])
            else Added(Text(items), m) == Text(items)
  {
    if |Text(items)| <= SCRATCH { SeenItems(items); }
    JoinSnoc(items, m, COMMA);
    JoinEmpty(items);
  }

  lemma JoinEmpty(items: seq<CString>)
    requires Pieces(items, COMMA)
    ensures Text(items) == [] <==> items == []
  {
  }

  lemma {:induction false} WithoutMembers(items: seq<CString>, m: CString)
    ensures forall x :: x in Without(items, m) <==> x in items && x != m
    ensures m !in items ==> Without(items, m) == items
  {
    if items != [] {
      WithoutMembers(items[1..], m);
      assert items == [items[0]] + items[1..];
    }
  }

  /** The text of the first items is no longer than the whole. */
  lemma {:induction false} JoinShorter(a: seq<CString>, b: seq<CString>)
    ensures |Text(a)| <= |Text(a + b)|
    decreases |b|
  {
    if b != [] {
      JoinShorter(a + [b[0]], b[1..]);
      JoinSnoc(a, b[0], COMMA);
      assert a + [b[0]] + b[1..] == a + b;
    } else {
      assert a + b == a;
    }
  }

  lemma {:induction false} ReaddedItems(ts: seq<CString>, m: CString, done: seq<CString>)
    requires Listing(done + ts) && |Text(done + Without(ts, m))| <= SCRATCH
    ensures Readded(ts, m, Text(done)) == Text(done + Without(ts, m))
    decreases |ts|
  {
    if ts == [] {
      assert done + [] == done;
    } else {
      var t := ts[0];
      assert (done + ts)[|done|] == t;
      if t == m {
        ListingDrop(done, ts);
        assert [] + Without(ts[1..], m) == Without(ts[1..], m);
        ReaddedItems(ts[1..], m, done);
      } else {
        assert done + [t] + ts[1..] == done + ts;
        assert done + [t] + Without(ts[1..], m) == done + Without(ts, m);
        JoinShorter(done + [t], Without(ts[1..], m));
        JoinShorter(done, [t]);
        JoinSnoc(done, t, COMMA);
        ListingHead(done, ts);
        AddedItem(done, t);
        ReaddedItems(ts[1..], m, done + [t]);
      }
    }
  }

  lemma ListingHead(done: seq<CString>, ts: seq<CString>)
    requires Listing(done + ts) && ts != []
    ensures Listing(done) && ts[0] !in done && Piece(ts[0], COMMA)
  {
    var c := done + ts;
    assert forall i :: 0 <= i < |done| ==> c[i] == done[i];
    assert c[|done|] == ts[0];
  }

  lemma ListingDrop(done: seq<CString>, ts: seq<CString>)
    requires Listing(done + ts) && ts != []
    ensures Listing(done + ts[1..])
  {
    var c, e := done + ts, done + ts[1..];
    assert forall i :: 0 <= i < |e| ==> e[i] == c[if i < |done| then i else i + 1];
  }

  /** Deleting removes exactly the item and keeps the order of the rest. */
  lemma DeletedItem(items: seq<CString>, m: CString)
    requires Listing(items) && |Text(items)| <= SCRATCH
    ensures Readded(items, m, []) == Text(Without(items, m))
  {
    JoinWithout(items, m, []);
    assert [] + items == items && [] + Without(items, m) == Without(items, m);
    assert Text([]) == [];
    ReaddedItems(items, m, []);
  }

  lemma {:induction false} JoinWithout(items: seq<CString>, m: CString, done: seq<CString>)
    ensures |Text(done + Without(items, m))| <= |Text(done + items)|
    decreases |items|
  {
    hide Text;
    if items != [] {
      var t, w := items[0], Without(items[1..], m);
      assert Without(items, m) == (if t == m then w else [t] + w);
      hide Without;
      JoinWithout(items[1..], m, done + [t]);
      assert done + [t] + items[1..] == done + items;
      if t == m {
        JoinMiddle(done, t, w);
      } else {
        assert done + [t] + w == done + ([t] + w);
      }
    }
  }

  lemma {:induction false} JoinMiddle(a: seq<CString>, t: CString, b: seq<CString>)
    ensures |Text(a + b)| <= |Text(a + [t] + b)|
  {
    if a == [] {
      assert a + b == b && a + [t] + b == [t] + b && ([t] + b)[1..] == b;
    } else {
      JoinMiddle(a[1..], t, b);
      assert (a + b)[1..] == a[1..] + b && (a + [t] + b)[1..] == a[1..] + [t] + b;
    }
  }

  /**
   * The list may grow to 256 characters, one more than the scratch copies hold. Membership is right for
   * every mask exactly up to 255; at 256 the last item is no longer found.
   */
  lemma MembershipExact(items: seq<CString>)
    requires Listing(items) && |Text(items)| <= LIST_LENGTH
    ensures (forall m :: m in Seen(Text(items)) <==> m in items) <==> |Text(items)| <= SCRATCH
  {
    if |Text(items)| <= SCRATCH {
      SeenItems(items);
    } else {
      var n := |items| - 1;
      var front, last := items[..n], items[n];
      assert items == front + [last];
      JoinSnoc(front, last, COMMA);
      var short: CString := last[..|last| - 1];
      LastCut(front, last, short);
      assert last !in Seen(Text(items)) && last in items;
    }
  }

  lemma LastCut(front: seq<CString>, last: CString, short: CString)
    requires Listing(front + [last]) && |Text(front + [last])| == LIST_LENGTH
    requires last != [] && short == last[..|last| - 1]
    ensures last !in Seen(Text(front + [last]))
  {
    ListingHead(front, [last]);
    SeenTooLong(front, last);
    hide Seen, Listing;
  }

  /** Adding back never makes more than the text of the pieces added. */
  lemma {:induction false} ReaddedLength(ts: seq<CString>, m: CString, s: CString, done: seq<CString>)
    requires |s| <= |Text(done)|
    ensures |Readded(ts, m, s)| <= |Text(done + Without(ts, m))|
    decreases |ts|
  {
    hide Text, Added;
    if ts == [] {
      assert done + [] == done;
    } else {
      var t, w := ts[0], Without(ts[1..], m);
      if t == m {
        assert [] + w == w;
        ReaddedLength(ts[1..], m, s, done);
      } else {
        assert done + [t] + w == done + ([t] + w);
        AddedLength(s, t, done);
        ReaddedLength(ts[1..], m, Added(s, t), done + [t]);
      }
    }
  }

  lemma AddedLength(s: CString, t: CString, done: seq<CString>)
    requires |s| <= |Text(done)|
    ensures |Added(s, t)| <= |Text(done + [t])|
  {
    JoinSnoc(done, t, COMMA);
    assert done == [] ==> Text(done) == [];
    hide Seen;
  }

  lemma {:induction false} WithoutConcat(a: seq<CString>, b: seq<CString>, m: CString)
    ensures Without(a + b, m) == Without(a, m) + Without(b, m)
  {
    if a == [] {
      assert a + b == b;
    } else {
      var h, c := if a[0] == m then [] else [a[0]], a + b;
      assert c[0] == a[0] && c[1..] == a[1..] + b;
      assert Without(c, m) == h + Without(c[1..], m);
      assert Without(a, m) == h + Without(a[1..], m);
      hide Without;
      WithoutConcat(a[1..], b, m);
    }
  }

  /**
   * Deleting an item leaves exactly the others if and only if the list has at most 255 characters; at 256
   * the last item is not found, and deleting another one cuts it.
   */
  lemma DeletedExactly(items: seq<CString>, m: CString)
    requires Listing(items) && |Text(items)| <= LIST_LENGTH && m in items
    ensures Removed(Text(items), m) == Text(Without(items, m)) <==> |Text(items)| <= SCRATCH
  {
    if |Text(items)| <= SCRATCH {
      SeenItems(items);
      DeletedItem(items, m);
    } else {
      var n := |items| - 1;
      assert items == items[..n] + [items[n]];
      DeletedTooLong(items[..n], items[n], m);
    }
  }

  lemma DeletedTooLong(front: seq<CString>, last: CString, m: CString)
    requires Listing(front + [last]) && |Text(front + [last])| == LIST_LENGTH && m in front + [last]
    ensures Removed(Text(front + [last]), m) != Text(Without(front + [last], m))
  {
    var items := front + [last];
    assert items[|front|] == last && Piece(last, COMMA);
    LastCut(front, last, last[..|last| - 1]);
    SeenTooLong(front, last);
    WithoutConcat(front, [last], m);
    ListingHead(front, [last]);
    hide Seen, Readded, Listing;
    if m == last {
      WithoutMembers(front, m);
      WithoutOne(last, m);
      assert front + [] == front;
      JoinSnoc(front, last, COMMA);
    } else {
      WithoutOne(last, m);
      DeletedCuts(front, last, m);
    }
  }

  lemma WithoutOne(t: CString, m: CString)
    ensures Without([t], m) == if t == m then [] else [t]
  {
    assert [t][1..] == [];
  }

  /** What a list of 256 characters looks like to a search: its last item is one character short, or gone. */
  ghost function Shortened(front: seq<CString>, last: CString): seq<CString>
    requires last != []
  {
    if |last| == 1 then front else front + [last[..|last| - 1]]
  }

  lemma SeenTooLong(front: seq<CString>, last: CString)
    requires Listing(front + [last]) && |Text(front + [last])| == LIST_LENGTH && last != []
    ensures Seen(Text(front + [last])) == Shortened(front, last)
  {
    var s := Text(front + [last]);
    var short: CString := last[..|last| - 1];
    ListingHead(front, [last]);
    JoinSnoc(front, last, COMMA);
    if short == [] {
      assert front != [];
      assert Cut(s, SCRATCH) == Text(front) + [COMMA];
      SplitJoin(front, COMMA);
      SplitSnoc(Text(front), COMMA, COMMA);
    } else {
      JoinSnoc(front, short, COMMA);
      assert Cut(s, SCRATCH) == Text(front + [short]);
      assert Piece(short, COMMA);
      SplitJoin(front + [short], COMMA);
    }
  }

  lemma DeletedCuts(front: seq<CString>, last: CString, m: CString)
    requires last != [] && m in front && m != last
    requires Seen(Text(front + [last])) == Shortened(front, last)
    ensures |Removed(Text(front + [last]), m)| < |Text(Without(front, m) + [last])|
  {
    hide Seen, Readded, Text, Without;
    var seen, w := Shortened(front, last), Without(front, m);
    assert m in seen;
    ReaddedLength(seen, m, [], []);
    assert [] + Without(seen, m) == Without(seen, m);
    ShortenedWithout(front, last, m);
    TextShrinks(w, last, if |last| == 1 || last[..|last| - 1] == m then [] else [last[..|last| - 1]]);
  }

  lemma ShortenedWithout(front: seq<CString>, last: CString, m: CString)
    requires last != []
    ensures Without(Shortened(front, last), m) ==
            Without(front, m) + if |last| == 1 || last[..|last| - 1] == m then [] else [last[..|last| - 1]]
  {
    hide Without;
    if |last| > 1 {
      WithoutConcat(front, [last[..|last| - 1]], m);
      WithoutOne(last[..|last| - 1], m);
    }
  }

  lemma TextShrinks(w: seq<CString>, last: CString, short: seq<CString>)
    requires last != [] && (short == [] || (|last| > 1 && short == [last[..|last| - 1]]))
    ensures |Text(w + short)| < |Text(w + [last])|
  {
    JoinSnoc(w, last, COMMA);
    assert w == [] ==> Text(w) == [];
    if short == [] { assert w + short == w; } else { JoinSnoc(w, short[0], COMMA); }
  }

  /** Three hostmasks that fill the list to its 256 characters; the last one is then not found. */
  lemma ThreeMasksFill(a: CString, b: CString, c: CString)
    requires Listing([a, b, c]) && |a| == 85 && |b| == 85 && |c| == 84
    ensures var s := Added(Added(Added([], a), b), c);
            s == Text([a, b, c]) && |s| == LIST_LENGTH && c !in Seen(s)
  {
    assert [a] + [b] == [a, b] && [a, b] + [c] == [a, b, c];
    ListingHead([a, b], [c]);
    ListingHead([a], [b]);
    ListingHead([], [a]);
    JoinSnoc([], a, COMMA);
    JoinSnoc([a], b, COMMA);
    JoinSnoc([a, b], c, COMMA);
    hide Seen, Listing, Added;
    FillStep([], a);
    FillStep([a], b);
    FillStep([a, b], c);
    LastCut([a, b], c, c[..|c| - 1]);
  }

  /** An item that is new and fits is appended. */
  lemma FillStep(items: seq<CString>, m: CString)
    requires Listing(items) && m !in items && Piece(m, COMMA) && |Text(items)| + |m| + 1 <= LIST_LENGTH
    ensures Added(Text(items), m) == Text(items + [m])
  {
    AddedItem(items, m);
  }
}
