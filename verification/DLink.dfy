/** The intrusive doubly linked list: every operation is the matching operation on a sequence of nodes. */
module DLink {
  class Node {
    var data: object?
    var prev: Node?
    var next: Node?
  }

  ghost predicate Distinct(s: seq<Node>) {
    forall i, j :: 0 <= i < j < |s| ==> s[i] != s[j]
  }

  ghost predicate Disjoint(s: seq<Node>, t: seq<Node>) {
    forall i, j :: 0 <= i < |s| && 0 <= j < |t| ==> s[i] != t[j]
  }

  ghost predicate Lacks(s: seq<Node>, m: Node) {
    forall i :: 0 <= i < |s| ==> s[i] != m
  }

  /** The nodes of s point forward and back along s, and to before and after at its ends. */
  ghost predicate Linked(s: seq<Node>, before: Node?, after: Node?)
    reads s`prev, s`next
  {
    && (forall i, j :: 0 <= i && j == i + 1 < |s| ==> s[i].next == s[j] && s[j].prev == s[i])
    && (s != [] ==> s[0].prev == before && s[|s| - 1].next == after)
  }

  ghost function First(s: seq<Node>, other: Node?): Node? {
    if s == [] then other else s[0]
  }

  ghost function Last(s: seq<Node>, other: Node?): Node? {
    if s == [] then other else s[|s| - 1]
  }

  lemma LinkedParts(s: seq<Node>, k: nat, before: Node?, after: Node?)
    requires Linked(s, before, after) && k <= |s|
    ensures Linked(s[..k], before, First(s[k..], after)) && Linked(s[k..], Last(s[..k], before), after)
  {
  }

  lemma LinkedConcat(s: seq<Node>, t: seq<Node>, before: Node?, after: Node?)
    requires Linked(s, before, First(t, after)) && Linked(t, Last(s, before), after)
    ensures Linked(s + t, before, after)
  {
  }

  lemma DistinctConcat(s: seq<Node>, t: seq<Node>)
    ensures Distinct(s + t) <==> Distinct(s) && Distinct(t) && Disjoint(s, t)
  {
    var c := s + t;
    if Distinct(c) {
      assert forall i :: 0 <= i < |s| ==> c[i] == s[i];
      assert forall i :: 0 <= i < |t| ==> c[|s| + i] == t[i];
      forall i, j | 0 <= i < |s| && 0 <= j < |t| ensures s[i] != t[j] {
        assert c[i] != c[|s| + j];
      }
    }
  }

  ghost function Maybe(n: Node?): set<Node> {
    if n == null then {} else {n}
  }

  /** The nodes before and after position k, and the node there. */
  lemma Around(nodes: seq<Node>, k: nat)
    requires Distinct(nodes) && Linked(nodes, null, null) && k < |nodes|
    ensures var s, t, u, m := nodes[..k], nodes[k + 1..], nodes[k..], nodes[k];
            && Linked(s, null, m) && Linked(t, m, null) && m.prev == Last(s, null) && m.next == First(t, null)
            && Distinct(s) && Distinct(t) && Disjoint(s, t) && Lacks(s, m) && Lacks(t, m)
            && Linked(u, Last(s, null), null) && Distinct(u) && Disjoint(s, u) && (k > 0 ==> nodes[k - 1] == m.prev)
  {
    LinkedParts(nodes, k, null, null);
    LinkedParts(nodes, k + 1, null, null);
  }

  lemma Apart(s: seq<Node>, t: seq<Node>, m: Node)
    requires m !in s + t
    ensures Lacks(s, m) && Lacks(t, m)
  {
    assert forall i :: 0 <= i < |s| ==> (s + t)[i] == s[i];
    assert forall i :: 0 <= i < |t| ==> (s + t)[|s| + i] == t[i];
  }

  /** The links that dlinkAddBefore writes when b is not the first node. */
  method LinkBefore(b: Node, p: Node, m: Node, ghost s: seq<Node>, ghost t: seq<Node>)
    requires s != [] && t != [] && b == t[0] && p == s[|s| - 1] && Linked(s, null, b) && Linked(t, p, null)
    requires Distinct(s) && Distinct(t) && Disjoint(s, t) && Lacks(s, m) && Lacks(t, m)
    modifies p`next, b`prev, m`prev, m`next
    ensures Linked(s + [m] + t, null, null) && Distinct(s + [m] + t)
  {
    p.next := m;
    m.prev := p;
    b.prev := m;
    m.next := b;
    LinkedConcat(s, [m], null, b);
    LinkedConcat(s + [m], t, null, null);
  }

  /** The links that dlinkDelete writes. */
  method Unlink(m: Node, p: Node?, n: Node?, ghost s: seq<Node>, ghost t: seq<Node>)
    requires Linked(s, null, m) && Linked(t, m, null) && p == Last(s, null) && n == First(t, null)
    requires Distinct(s) && Distinct(t) && Disjoint(s, t) && Lacks(s, m) && Lacks(t, m)
    modifies m`prev, m`next, Maybe(p)`next, Maybe(n)`prev
    ensures Linked(s + t, null, null) && Distinct(s + t) && m.prev == null && m.next == null
  {
    if n != null { n.prev := p; }
    if p != null { p.next := n; }
    m.next, m.prev := null, null;
    LinkedConcat(s, t, null, null);
    DistinctConcat(s, t);
  }

  class List {
    var head: Node?
    var tail: Node?
    var length: nat
    ghost var nodes: seq<Node>

    ghost predicate Valid()
      reads this, nodes`prev, nodes`next
    {
      && Distinct(nodes) && Linked(nodes, null, null) && length == |nodes|
      && head == First(nodes, null) && tail == Last(nodes, null)
    }

    constructor ()
      ensures Valid() && nodes == []
    {
      head, tail, length, nodes := null, null, 0, [];
    }

    /** dlinkAdd */
    method Add(data: object?, m: Node)
      requires Valid() && m !in nodes
      modifies this, m, nodes`prev, nodes`next
      ensures Valid() && nodes == [m] + old(nodes)
      ensures m.data == data
    {
      m.data := data;
      m.prev := null;
      m.next := head;
      if head != null {
        head.prev := m;
      } else if tail == null {
        tail := m;
      }
      head := m;
      length := length + 1;
      nodes := [m] + nodes;
    }

    /** dlinkAddTail */
    method AddTail(data: object?, m: Node)
      requires Valid() && m !in nodes
      modifies this, m, nodes`prev, nodes`next
      ensures Valid() && nodes == old(nodes) + [m]
      ensures m.data == data
    {
      m.data := data;
      m.next := null;
      m.prev := tail;
      if tail != null {
        tail.next := m;
      } else if head == null {
        head := m;
      }
      tail := m;
      length := length + 1;
      nodes := nodes + [m];
    }

    /** dlinkAddBefore; k is where b stands. */
    method AddBefore(b: Node, data: object?, m: Node, ghost k: nat)
      requires Valid() && m !in nodes && k < |nodes| && nodes[k] == b
      modifies this, m, nodes`prev, nodes`next
      ensures Valid() && nodes == old(nodes[..k] + [m] + nodes[k..])
      ensures m.data == data
    {
      assert b == head <==> k == 0;
      hide Linked, Distinct, Disjoint, Lacks;
      if b == head {
        assert nodes[..k] + [m] + nodes[k..] == [m] + nodes;
        Add(data, m);
      } else {
        AddInside(b, data, m, k);
      }
    }

    /** The second branch of dlinkAddBefore. */
    method AddInside(b: Node, data: object?, m: Node, ghost k: nat)
      requires Valid() && m !in nodes && 0 < k < |nodes| && nodes[k] == b
      modifies this, m, nodes`prev, nodes`next
      ensures Valid() && nodes == old(nodes[..k] + [m] + nodes[k..])
      ensures m.data == data
    {
      ghost var s, t := nodes[..k], nodes[k..];
      hide Linked, Distinct, Disjoint, Lacks;
      assert nodes == s + t;
      Around(nodes, k);
      Apart(s, t, m);
      m.data := data;
      assert nodes[k - 1] == b.prev;
      LinkBefore(b, b.prev, m, s, t);
      length := length + 1;
      nodes := s + [m] + t;
    }

    /** dlinkDelete; k is where m stands. */
    method Delete(m: Node, ghost k: nat)
      requires Valid() && k < |nodes| && nodes[k] == m
      modifies this, nodes`prev, nodes`next
      ensures Valid() && nodes == old(nodes[..k] + nodes[k + 1..]) && m.prev == null && m.next == null
    {
      ghost var s, t := nodes[..k], nodes[k + 1..];
      hide Linked, Distinct, Disjoint, Lacks;
      Around(nodes, k);
      if m.next == null { tail := m.prev; }
      if m.prev == null { head := m.next; }
      length := length - 1;
      Unlink(m, m.prev, m.next, s, t);
      nodes := s + t;
    }

    /** dlinkFind: the first node that carries the data. */
    method Find(data: object?) returns (m: Node?, ghost k: nat)
      requires Valid()
      ensures m == null <==> forall i :: 0 <= i < |nodes| ==> nodes[i].data != data
      ensures m != null ==> m in nodes && m.data == data
      ensures k <= |nodes| && forall i :: 0 <= i < k ==> nodes[i].data != data
      ensures if k == |nodes| then m == null else m == nodes[k] && m.data == data
    {
      m, k := head, 0;
      while m != null
        invariant k <= |nodes| && m == (if k < |nodes| then nodes[k] else null)
        invariant forall i :: 0 <= i < k ==> nodes[i].data != data
        decreases |nodes| - k
      {
        if m.data == data { return; }
        assert k + 1 < |nodes| ==> m.next == nodes[k + 1];
        m := m.next;
        k := k + 1;
      }
    }

    /** dlinkFindDelete: takes out the first node that carries the data. */
    method FindDelete(data: object?) returns (m: Node?, ghost k: nat)
      requires Valid()
      modifies this, nodes`prev, nodes`next
      ensures Valid() && k <= old(|nodes|) && forall i :: 0 <= i < k ==> old(nodes[i].data) != data
      ensures if k == old(|nodes|) then m == null && nodes == old(nodes)
              else m == old(nodes[k]) && m.data == data && m.prev == null && m.next == null
                   && nodes == old(nodes[..k] + nodes[k + 1..])
    {
      m, k := Find(data);
      if m != null { Delete(m, k); }
    }
  }

  /** dlinkMoveList: from's nodes go in front of to's, and from is left empty. */
  method MoveList(from: List, to: List)
    requires from != to && from.Valid() && to.Valid() && Disjoint(from.nodes, to.nodes)
    modifies from, to, from.nodes`prev, from.nodes`next, to.nodes`prev
    ensures from.Valid() && to.Valid() && from.nodes == [] && to.nodes == old(from.nodes + to.nodes)
  {
    if from.head == null { return; }
    if to.head == null {
      to.head := from.head;
      to.tail := from.tail;
      from.head, from.tail := null, null;
      to.length := from.length;
      from.length := 0;
      to.nodes, from.nodes := from.nodes, [];
      return;
    }
    ghost var s, t := from.nodes, to.nodes;
    from.tail.next := to.head;
    from.head.prev := to.head.prev;
    to.head.prev := from.tail;
    to.head := from.head;
    from.head, from.tail := null, null;
    to.length := to.length + from.length;
    from.length := 0;
    LinkedConcat(s, t, null, null);
    DistinctConcat(s, t);
    to.nodes, from.nodes := s + t, [];
  }
}
