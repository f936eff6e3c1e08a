/** CAP negotiation: REQ, ACK and CLEAR, and what every run of them keeps. */
module Cap {
  import opened CStrings
  import opened CapText

  /** What a connection has asked for and what is in force; a bit mask is the set of its bits. */
  datatype Conn = Conn(client: set<nat>, active: set<nat>)

  /** The entry an item names. */
  ghost function Entry(t: seq<Capability>, i: Item): Option<Capability> {
    var r := Lookup(t, i.word);
    if r.None? then None else Some(t[r.value])
  }

  ghost predicate Acceptable(t: seq<Capability>, i: Item) {
    var e := Entry(t, i);
    e.Some? && !(!i.neg && e.value.prohibit) && !(i.neg && e.value.sticky)
  }

  // ---------------------------------------------------------------- REQ

  datatype Asked = Asked(plus: set<nat>, minus: set<nat>, conn: Conn)

  /** One accepted item. */
  function Ask(a: Asked, c: Capability, neg: bool): Asked {
    if neg then
      Asked(a.plus - {c.bit}, a.minus + {c.bit},
            Conn(a.conn.client - {c.bit}, if c.proto then a.conn.active else a.conn.active - {c.bit}))
    else
      Asked(a.plus + {c.bit}, a.minus - {c.bit},
            Conn(a.conn.client + {c.bit}, if c.proto then a.conn.active else a.conn.active + {c.bit}))
  }

  ghost predicate AllAcceptable(t: seq<Capability>, items: seq<Item>) {
    forall i :: 0 <= i < |items| ==> Acceptable(t, items[i])
  }

  ghost function AskAll(t: seq<Capability>, items: seq<Item>, a: Asked): Asked
    requires AllAcceptable(t, items)
  {
    if items == [] then a
    else
      var i := items[|items| - 1];
      Ask(AskAll(t, items[..|items| - 1], a), Entry(t, i).value, i.neg)
  }

  /** The last word on a bit: Some(true) if it is asked for, Some(false) if it is given up. */
  ghost function LastWord(t: seq<Capability>, items: seq<Item>, bit: nat): Option<bool> {
    if items == [] then None
    else
      var i := items[|items| - 1];
      if Entry(t, i).Some? && Entry(t, i).value.bit == bit then Some(!i.neg)
      else LastWord(t, items[..|items| - 1], bit)
  }

  /** Some capability of the table has this bit and must be acknowledged. */
  ghost predicate Proto(t: seq<Capability>, bit: nat) {
    exists i :: 0 <= i < |t| && t[i].bit == bit && t[i].proto
  }

  lemma EntryProto(t: seq<Capability>, i: Item)
    requires TableOk(t) && Entry(t, i).Some?
    ensures Proto(t, Entry(t, i).value.bit) <==> Entry(t, i).value.proto
  {
    var r := Lookup(t, i.word).value;
    assert t[r] == Entry(t, i).value;
  }

  /** Every capability named ends up as its last mention says; all else stays, and set and rem are disjoint. */
  lemma {:induction false} LastWordCounts(t: seq<Capability>, items: seq<Item>, conn: Conn, bit: nat)
    requires TableOk(t) && AllAcceptable(t, items)
    ensures var r, w := AskAll(t, items, Asked({}, {}, conn)), LastWord(t, items, bit);
            && (bit in r.plus <==> w == Some(true)) && (bit in r.minus <==> w == Some(false))
            && (bit in r.conn.client <==> if w.Some? then w.value else bit in conn.client)
            && (bit in r.conn.active <==> if w.Some? && !Proto(t, bit) then w.value else bit in conn.active)
  {
    if items != [] {
      var i := items[|items| - 1];
      LastWordCounts(t, items[..|items| - 1], conn, bit);
      assert Acceptable(t, i);
      EntryProto(t, i);
      hide TableOk, Proto, Entry;
    }
  }

  ghost function ItemsOf(list: Option<CString>): seq<Item> {
    if list.None? then [] else Items(list.value)
  }

  /** REQ is all or nothing. */
  ghost function Requested(t: seq<Capability>, conn: Conn, list: Option<CString>): Conn {
    if AllAcceptable(t, ItemsOf(list)) then AskAll(t, ItemsOf(list), Asked({}, {}, conn)).conn else conn
  }

  // ---------------------------------------------------------------- ACK

  /** One acknowledged item; it is ignored unless it agrees with what the client asked for. */
  function AckEntry(e: Option<Capability>, neg: bool, conn: Conn): Conn {
    if e.None? || (if neg then e.value.bit in conn.client else e.value.bit !in conn.client) then conn
    else if neg then conn.(active := conn.active - {e.value.bit})
    else conn.(active := conn.active + {e.value.bit})
  }

  ghost function AckOne(t: seq<Capability>, i: Item, conn: Conn): Conn {
    AckEntry(Entry(t, i), i.neg, conn)
  }

  ghost function AckAll(t: seq<Capability>, items: seq<Item>, conn: Conn): Conn {
    if items == [] then conn else AckOne(t, items[|items| - 1], AckAll(t, items[..|items| - 1], conn))
  }

  /** Some item names this bit with this sign. */
  ghost predicate Named(t: seq<Capability>, items: seq<Item>, bit: nat, neg: bool) {
    exists i :: 0 <= i < |items| && items[i].neg == neg && Entry(t, items[i]).Some? && Entry(t, items[i]).value.bit == bit
  }

  lemma NamedSnoc(t: seq<Capability>, items: seq<Item>, bit: nat, neg: bool)
    requires items != []
    ensures var i := items[|items| - 1];
            Named(t, items, bit, neg) <==>
              (Named(t, items[..|items| - 1], bit, neg)
               || (i.neg == neg && Entry(t, i).Some? && Entry(t, i).value.bit == bit))
  {
    var n := |items| - 1;
    hide Entry;
    assert forall i :: 0 <= i < n ==> items[..n][i] == items[i];
  }

  /** An acknowledgement counts exactly when it agrees with what the client asked for. */
  lemma {:induction false} AckCounts(t: seq<Capability>, items: seq<Item>, conn: Conn, bit: nat)
    ensures var r := AckAll(t, items, conn);
            && r.client == conn.client
            && (bit in r.active <==> if bit in conn.client then bit in conn.active || Named(t, items, bit, false)
                                     else bit in conn.active && !Named(t, items, bit, true))
  {
    if items != [] {
      AckCounts(t, items[..|items| - 1], conn, bit);
      NamedSnoc(t, items, bit, false);
      NamedSnoc(t, items, bit, true);
      hide Entry, Named;
    }
  }

  ghost function Acked(t: seq<Capability>, conn: Conn, list: Option<CString>): Conn {
    AckAll(t, ItemsOf(list), conn)
  }

  // ---------------------------------------------------------------- CLEAR

  /** The bits that CLEAR takes away. */
  ghost predicate Clears(t: seq<Capability>, conn: Conn, bit: nat) {
    bit in conn.client && exists i :: 0 <= i < |t| && t[i].bit == bit && !t[i].sticky
  }

  ghost predicate ClearedTo(t: seq<Capability>, conn: Conn, r: Conn) {
    forall bit: nat ::
      && (bit in r.client <==> bit in conn.client && !Clears(t, conn, bit))
      && (bit in r.active <==> bit in conn.active && !(Clears(t, conn, bit) && !Proto(t, bit)))
  }

  /** The connection's two masks, changed by the three commands. */
  class Connection {
    const table: seq<Capability>
    var client: set<nat>
    var active: set<nat>

    ghost function View(): Conn
      reads this
    {
      Conn(client, active)
    }

    constructor (table: seq<Capability>)
      ensures this.table == table && View() == Conn({}, {})
    {
      this.table := table;
      client, active := {}, {};
    }

    /** cap_req; the two sets go out with the acknowledgement. */
    method Request(list: Option<CString>) returns (ok: bool, added: set<nat>, removed: set<nat>)
      requires TableOk(table)
      modifies this
      ensures ok <==> AllAcceptable(table, ItemsOf(list))
      ensures View() == Requested(table, old(View()), list)
      ensures ok ==> (added, removed) == (var a := AskAll(table, ItemsOf(list), Asked({}, {}, old(View()))); (a.plus, a.minus))
    {
      var a;
      ok, a := WalkRequest(list, table, Asked({}, {}, Conn(client, active)));
      if !ok { return false, {}, {}; }
      client, active := a.conn.client, a.conn.active;
      return true, a.plus, a.minus;
    }

    /** cap_ack */
    method Acknowledge(list: Option<CString>)
      requires TableOk(table)
      modifies this`active
      ensures View() == Acked(table, old(View()), list)
    {
      var c := WalkAck(list, table, Conn(client, active));
      AckKeepsClient(table, ItemsOf(list), View());
      active := c.active;
    }

    /** cap_clear */
    method Clear() returns (cleared: set<nat>)
      requires TableOk(table)
      modifies this
      ensures ClearedTo(table, old(View()), View())
      ensures forall bit: nat :: bit in cleared <==> Clears(table, old(View()), bit)
    {
      cleared := {};
      for i := 0 to |table|
        invariant forall bit: nat :: bit in cleared <==> Clears(table[..i], old(View()), bit)
        invariant ClearedTo(table[..i], old(View()), View())
      {
        var c := table[i];
        ClearStep(table, i, old(View()), View());
        if c.bit in client && !c.sticky {
          cleared := cleared + {c.bit};
          client := client - {c.bit};
          if !c.proto { active := active - {c.bit}; }
        }
      }
      assert table[..|table|] == table;
    }
  }

  /** The items still to be walked. */
  ghost function Left(list: Option<CString>, cl: Option<nat>): seq<Item>
    requires cl.Some? ==> list.Some? && cl.value <= |list.value|
  {
    if cl.None? then [] else Items(list.value[cl.value..])
  }

  lemma LeftStart(list: Option<CString>)
    ensures Left(list, if list.None? then None else Some(0)) == ItemsOf(list)
    ensures Left(list, None) == []
  {
    assert list.Some? ==> list.value[0..] == list.value;
  }

  lemma LeftStep(list: Option<CString>, p: nat, next: Option<nat>)
    requires list.Some? && p <= |list.value|
    requires next.None? <==> Rest(list.value[p..]) == []
    requires next.Some? ==> next.value <= |list.value| && list.value[next.value..] == Rest(list.value[p..])
    ensures var s := list.value[p..];
            Left(list, Some(p)) == [Item(Negative(s), Word(Body(s)))] + Left(list, next)
  {
    hide Rest, Negative, Word, Body;
  }

  /** find_cap on the list, in terms of its items. */
  method TakeItem(list: Option<CString>, p: nat, t: seq<Capability>, ghost done: seq<Item>)
    returns (cap: Option<Capability>, neg: bool, next: Option<nat>, ghost item: Item)
    requires list.Some? && p <= |list.value| && TableOk(t) && done + Left(list, Some(p)) == ItemsOf(list)
    ensures cap == Entry(t, item) && neg == item.neg
    ensures next.Some? ==> p < next.value <= |list.value|
    ensures |done| < |ItemsOf(list)| && ItemsOf(list)[|done|] == item
    ensures done + [item] + Left(list, next) == ItemsOf(list)
  {
    hide Left, Items, Rest, ItemsOf, Negative, Word, Body, TableOk;
    item := Item(Negative(list.value[p..]), Word(Body(list.value[p..])));
    var i;
    i, neg, next := FindCap(list.value, p, t);
    cap := if i.None? then None else Some(t[i.value]);
    LeftStep(list, p, next);
    assert done + [item] + Left(list, next) == done + ([item] + Left(list, next));
  }

  /** The list walk of cap_req. */
  method WalkRequest(list: Option<CString>, t: seq<Capability>, start: Asked) returns (ok: bool, a: Asked)
    requires TableOk(t)
    ensures ok <==> AllAcceptable(t, ItemsOf(list))
    ensures ok ==> a == AskAll(t, ItemsOf(list), start)
  {
    a := start;
    ghost var done: seq<Item> := [];
    var cl: Option<nat> := if list.None? then None else Some(0);
    LeftStart(list);
    NoItems(t, start);
    hide Left, ItemsOf, TableOk, Entry, AskAll, AllAcceptable, Ask;
    while cl.Some?
      invariant cl.Some? ==> list.Some? && cl.value <= |list.value|
      invariant done + Left(list, cl) == ItemsOf(list)
      invariant AllAcceptable(t, done) && a == AskAll(t, done, start)
      decreases if cl.None? then 0 else |list.value| + 1 - cl.value
    {
      var cap, neg, next, item := TakeItem(list, cl.value, t, done);
      if cap.None? || (!neg && cap.value.prohibit) || (neg && cap.value.sticky) {
        NotAll(t, ItemsOf(list), |done|);
        return false, a;
      }
      SnocAll(t, done, item, start);
      a, done, cl := Ask(a, cap.value, neg), done + [item], next;
    }
    assert done + [] == done;
    return true, a;
  }

  /** The list walk of cap_ack. */
  method WalkAck(list: Option<CString>, t: seq<Capability>, start: Conn) returns (c: Conn)
    requires TableOk(t)
    ensures c == AckAll(t, ItemsOf(list), start)
  {
    c := start;
    ghost var done: seq<Item> := [];
    var cl: Option<nat> := if list.None? then None else Some(0);
    LeftStart(list);
    NoItems(t, Asked({}, {}, start));
    hide Left, ItemsOf, TableOk, Entry, AckAll, AckEntry;
    while cl.Some?
      invariant cl.Some? ==> list.Some? && cl.value <= |list.value|
      invariant done + Left(list, cl) == ItemsOf(list)
      invariant c == AckAll(t, done, start)
      decreases if cl.None? then 0 else |list.value| + 1 - cl.value
    {
      var cap, neg, next, item := TakeItem(list, cl.value, t, done);
      SnocAck(t, done, item, start);
      c, done, cl := AckEntry(cap, neg, c), done + [item], next;
    }
    assert done + [] == done;
  }

  lemma AckKeepsClient(t: seq<Capability>, items: seq<Item>, conn: Conn)
    ensures AckAll(t, items, conn).client == conn.client
  {
    AckCounts(t, items, conn, 0);
  }

  lemma NoItems(t: seq<Capability>, a: Asked)
    ensures AllAcceptable(t, []) && AskAll(t, [], a) == a && AckAll(t, [], a.conn) == a.conn
  {
  }

  lemma NotAll(t: seq<Capability>, items: seq<Item>, i: nat)
    requires i < |items| && !Acceptable(t, items[i])
    ensures !AllAcceptable(t, items)
  {
  }

  lemma SnocAck(t: seq<Capability>, done: seq<Item>, i: Item, c: Conn)
    ensures AckAll(t, done + [i], c) == AckOne(t, i, AckAll(t, done, c))
  {
    assert (done + [i])[..|done|] == done;
  }

  lemma SnocAll(t: seq<Capability>, done: seq<Item>, i: Item, a: Asked)
    requires AllAcceptable(t, done) && Acceptable(t, i)
    ensures AllAcceptable(t, done + [i])
    ensures AskAll(t, done + [i], a) == Ask(AskAll(t, done, a), Entry(t, i).value, i.neg)
  {
    assert (done + [i])[..|done|] == done;
  }

  /** One entry of the table, taken into account. */
  lemma ClearStep(t: seq<Capability>, i: nat, conn: Conn, r: Conn)
    requires TableOk(t) && i < |t| && ClearedTo(t[..i], conn, r)
    ensures forall bit: nat :: Clears(t[..i + 1], conn, bit) <==>
              Clears(t[..i], conn, bit) || (bit == t[i].bit && bit in conn.client && !t[i].sticky)
    ensures t[i].bit in conn.client <==> t[i].bit in r.client
    ensures var c := t[i];
            ClearedTo(t[..i + 1], conn,
              if c.bit in conn.client && !c.sticky
              then Conn(r.client - {c.bit}, if c.proto then r.active else r.active - {c.bit}) else r)
  {
    var p, q := t[..i], t[..i + 1];
    assert q[i] == t[i] && forall j :: 0 <= j < i ==> p[j] == q[j] == t[j];
    forall bit: nat
      ensures Clears(q, conn, bit) <==> Clears(p, conn, bit) || (bit == t[i].bit && bit in conn.client && !t[i].sticky)
      ensures Proto(q, bit) <==> Proto(p, bit) || (bit == t[i].bit && t[i].proto)
    {
    }
    assert !Clears(p, conn, t[i].bit) && !Proto(p, t[i].bit);
  }

  // ---------------------------------------------------------------- every run

  datatype Command = Req(list: Option<CString>) | Ack(list: Option<CString>) | Clear

  ghost predicate Step(t: seq<Capability>, c: Conn, cmd: Command, r: Conn) {
    match cmd
    case Req(list) => r == Requested(t, c, list)
    case Ack(list) => r == Acked(t, c, list)
    case Clear => ClearedTo(t, c, r)
  }

  /** A run: the states before, between and after the commands. */
  ghost predicate Run(t: seq<Capability>, cmds: seq<Command>, states: seq<Conn>) {
    && |states| == |cmds| + 1 && states[0] == Conn({}, {})
    && forall i :: 0 <= i < |cmds| ==> Step(t, states[i], cmds[i], states[i + 1])
  }

  ghost predicate Prohibited(t: seq<Capability>, bit: nat) {
    exists i :: 0 <= i < |t| && t[i].bit == bit && t[i].prohibit
  }

  ghost predicate Sticky(t: seq<Capability>, bit: nat) {
    exists i :: 0 <= i < |t| && t[i].bit == bit && t[i].sticky
  }

  lemma EntryFlags(t: seq<Capability>, i: Item)
    requires TableOk(t) && Entry(t, i).Some?
    ensures var c := Entry(t, i).value;
            (Prohibited(t, c.bit) <==> c.prohibit) && (Sticky(t, c.bit) <==> c.sticky)
  {
    assert t[Lookup(t, i.word).value] == Entry(t, i).value;
  }

  /** The last word on a bit, if all items are acceptable, respects its flags. */
  lemma {:induction false} LastWordAllowed(t: seq<Capability>, items: seq<Item>, bit: nat)
    requires TableOk(t) && AllAcceptable(t, items)
    ensures LastWord(t, items, bit) == Some(true) ==> !Prohibited(t, bit)
    ensures LastWord(t, items, bit) == Some(false) ==> !Sticky(t, bit)
  {
    if items != [] {
      LastWordAllowed(t, items[..|items| - 1], bit);
      assert Acceptable(t, items[|items| - 1]);
      EntryFlags(t, items[|items| - 1]);
      hide TableOk, Prohibited, Sticky, Entry;
    }
  }

  /** Sticky bits stay, prohibited bits do not come in, and plain bits are active as soon as asked for. */
  lemma StepKeeps(t: seq<Capability>, c: Conn, cmd: Command, r: Conn, bit: nat)
    requires TableOk(t) && Step(t, c, cmd, r)
    ensures Sticky(t, bit) && bit in c.client ==> bit in r.client
    ensures Prohibited(t, bit) && bit !in c.client ==> bit !in r.client
    ensures !Proto(t, bit) && (bit in c.active <==> bit in c.client) ==> (bit in r.active <==> bit in r.client)
  {
    match cmd
    case Req(list) =>
      if AllAcceptable(t, ItemsOf(list)) {
        LastWordCounts(t, ItemsOf(list), c, bit);
        LastWordAllowed(t, ItemsOf(list), bit);
        hide Proto, Sticky, Prohibited, AskAll, LastWord;
      }
    case Ack(list) =>
      AckCounts(t, ItemsOf(list), c, bit);
      hide Proto, Sticky, Prohibited, AckAll, Named;
    case Clear =>
      assert Clears(t, c, bit) && Sticky(t, bit) ==> false;
  }

  /** In every run: no prohibited capability is ever held, and every plain one is active exactly when held. */
  lemma {:induction false} RunKeeps(t: seq<Capability>, cmds: seq<Command>, states: seq<Conn>, i: nat, bit: nat)
    requires TableOk(t) && Run(t, cmds, states) && i < |states|
    ensures Prohibited(t, bit) ==> bit !in states[i].client
    ensures !Proto(t, bit) ==> (bit in states[i].active <==> bit in states[i].client)
  {
    hide Proto, Prohibited, TableOk, Step;
    if i > 0 {
      RunKeeps(t, cmds, states, i - 1, bit);
      assert Step(t, states[i - 1], cmds[i - 1], states[i - 1 + 1]);
      StepKeeps(t, states[i - 1], cmds[i - 1], states[i], bit);
    }
  }

  /** In every run: once held, a sticky capability is never lost. */
  lemma {:induction false} StickyStays(t: seq<Capability>, cmds: seq<Command>, states: seq<Conn>, i: nat, j: nat, bit: nat)
    requires TableOk(t) && Run(t, cmds, states) && i <= j < |states| && Sticky(t, bit) && bit in states[i].client
    ensures bit in states[j].client
  {
    hide Sticky, TableOk, Step;
    if i < j {
      StickyStays(t, cmds, states, i, j - 1, bit);
      assert Step(t, states[j - 1], cmds[j - 1], states[j - 1 + 1]);
      StepKeeps(t, states[j - 1], cmds[j - 1], states[j], bit);
    }
  }
}
