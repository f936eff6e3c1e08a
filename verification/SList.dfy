/** The order a merge sort gives a sequence, apart from any heap. */
module MergeOrder {
  /** On the members of s the comparator's "not greater" relation is total and transitive. */
  ghost predicate Preorder<T>(s: seq<T>, cmp: (T, T) -> int) {
    && (forall x, y :: x in s && y in s ==> cmp(x, y) <= 0 || cmp(y, x) <= 0)
    && forall x, y, z :: x in s && y in s && z in s && cmp(x, y) <= 0 && cmp(y, z) <= 0 ==> cmp(x, z) <= 0
  }

  ghost function Merge<T>(l: seq<T>, r: seq<T>, cmp: (T, T) -> int): (m: seq<T>)
    ensures multiset(m) == multiset(l) + multiset(r)
    ensures l == [] ==> m == r
    ensures r == [] ==> m == l
  {
    if l == [] then r
    else if r == [] then l
    else if cmp(l[0], r[0]) <= 0 then
      assert l == [l[0]] + l[1..];
      [l[0]] + Merge(l[1..], r, cmp)
    else
      assert r == [r[0]] + r[1..];
      [r[0]] + Merge(l, r[1..], cmp)
  }

  ghost function Sorted<T>(s: seq<T>, cmp: (T, T) -> int): (r: seq<T>)
    ensures multiset(r) == multiset(s)
    decreases |s|
  {
    if |s| < 2 then s
    else
      assert s == s[..|s| / 2] + s[|s| / 2..];
      Merge(Sorted(s[..|s| / 2], cmp), Sorted(s[|s| / 2..], cmp), cmp)
  }

  ghost predicate Before<T>(s: seq<T>, x: T, y: T) {
    exists i, j :: 0 <= i < j < |s| && s[i] == x && s[j] == y
  }

  /** x may come before y: it is not greater, and when the two are equivalent the input had it first. */
  ghost predicate Precedes<T>(s: seq<T>, cmp: (T, T) -> int, x: T, y: T) {
    cmp(x, y) <= 0 && (cmp(y, x) <= 0 ==> Before(s, x, y))
  }

  /** r is arranged as a stable sort of s arranges it. */
  ghost predicate Arranged<T>(s: seq<T>, cmp: (T, T) -> int, r: seq<T>) {
    forall i, j :: 0 <= i < j < |r| ==> Precedes(s, cmp, r[i], r[j])
  }

  /** Merging keeps the arrangement when every tie between the two inputs favours the left one. */
  lemma {:induction false} MergeArranged<T>(s: seq<T>, l: seq<T>, r: seq<T>, cmp: (T, T) -> int)
    requires Preorder(s, cmp) && (forall x :: x in l || x in r ==> x in s)
    requires Arranged(s, cmp, l) && Arranged(s, cmp, r)
    requires forall x, y :: x in l && y in r ==> Before(s, x, y)
    ensures Arranged(s, cmp, Merge(l, r, cmp))
  {
    if l != [] && r != [] {
      var first := cmp(l[0], r[0]) <= 0;
      var h := if first then l[0] else r[0];
      var l', r' := if first then l[1..] else l, if first then r else r[1..];
      hide Before;
      MergeArranged(s, l', r', cmp);
      var m := Merge(l', r', cmp);
      assert Merge(l, r, cmp) == [h] + m;
      hide Merge;
      forall y | y in m ensures Precedes(s, cmp, h, y) {
        MergeMember(l', r', cmp, y);
        HeadPrecedes(s, l, r, cmp, y);
      }
      hide Precedes;
      ArrangedCons(s, cmp, h, m);
    }
  }

  lemma MergeMember<T>(l: seq<T>, r: seq<T>, cmp: (T, T) -> int, x: T)
    ensures x in Merge(l, r, cmp) <==> x in l || x in r
  {
    var m := Merge(l, r, cmp);
    hide Merge;
    assert x in m <==> x in multiset(m);
    assert x in l <==> x in multiset(l);
    assert x in r <==> x in multiset(r);
  }

  lemma ArrangedCons<T>(s: seq<T>, cmp: (T, T) -> int, h: T, m: seq<T>)
    requires Arranged(s, cmp, m) && forall y :: y in m ==> Precedes(s, cmp, h, y)
    ensures Arranged(s, cmp, [h] + m)
  {
    hide Precedes;
    var r := [h] + m;
    forall i, j | 0 <= i < j < |r| ensures Precedes(s, cmp, r[i], r[j]) {
      assert r[j] == m[j - 1] && m[j - 1] in m;
      if i > 0 { assert r[i] == m[i - 1]; }
    }
  }

  lemma HeadPrecedes<T>(s: seq<T>, l: seq<T>, r: seq<T>, cmp: (T, T) -> int, y: T)
    requires l != [] && r != [] && Preorder(s, cmp) && (forall x :: x in l || x in r ==> x in s)
    requires Arranged(s, cmp, l) && Arranged(s, cmp, r)
    requires forall x, y :: x in l && y in r ==> Before(s, x, y)
    ensures cmp(l[0], r[0]) <= 0 && (y in l[1..] || y in r) ==> Precedes(s, cmp, l[0], y)
    ensures cmp(l[0], r[0]) > 0 && (y in l || y in r[1..]) ==> Precedes(s, cmp, r[0], y)
  {
    hide Before;
    assert forall k :: 0 < k < |l| ==> Precedes(s, cmp, l[0], l[k]);
    assert forall k :: 0 < k < |r| ==> Precedes(s, cmp, r[0], r[k]);
    assert cmp(l[0], l[0]) <= 0 && cmp(r[0], r[0]) <= 0;
  }

  lemma WeakenArranged<T>(s: seq<T>, t: seq<T>, cmp: (T, T) -> int, r: seq<T>)
    requires Arranged(s, cmp, r) && forall x, y :: Before(s, x, y) ==> Before(t, x, y)
    ensures Arranged(t, cmp, r)
  {
  }

  lemma BeforeParts<T>(s: seq<T>, h: nat)
    requires h <= |s|
    ensures forall x, y :: Before(s[..h], x, y) || Before(s[h..], x, y) ==> Before(s, x, y)
    ensures forall x, y :: x in s[..h] && y in s[h..] ==> Before(s, x, y)
  {
    forall x, y | Before(s[h..], x, y) ensures Before(s, x, y) {
      var i, j :| 0 <= i < j < |s[h..]| && s[h..][i] == x && s[h..][j] == y;
      assert s[h + i] == x && s[h + j] == y;
    }
    forall x, y | x in s[..h] && y in s[h..] ensures Before(s, x, y) {
      var i :| 0 <= i < h && s[i] == x;
      var j :| h <= j < |s| && s[j] == y;
    }
  }

  lemma PreorderParts<T>(s: seq<T>, h: nat, cmp: (T, T) -> int)
    requires h <= |s| && Preorder(s, cmp)
    ensures Preorder(s[..h], cmp) && Preorder(s[h..], cmp)
  {
    PartMembers(s, h);
  }

  /** Merging two arranged halves arranges the whole. */
  lemma MergeHalves<T>(s: seq<T>, h: nat, l: seq<T>, r: seq<T>, cmp: (T, T) -> int)
    requires h <= |s| && Preorder(s, cmp)
    requires Arranged(s[..h], cmp, l) && Arranged(s[h..], cmp, r)
    requires (forall x :: x in l <==> x in s[..h]) && (forall x :: x in r <==> x in s[h..])
    ensures Arranged(s, cmp, Merge(l, r, cmp))
  {
    BeforeParts(s, h);
    PartMembers(s, h);
    hide Before;
    WeakenArranged(s[..h], s, cmp, l);
    WeakenArranged(s[h..], s, cmp, r);
    hide Arranged, Preorder, Merge;
    MergeArranged(s, l, r, cmp);
  }

  /** For every total preorder the merge sort is a stable sort. */
  lemma {:induction false} SortedArranged<T>(s: seq<T>, cmp: (T, T) -> int)
    requires Preorder(s, cmp)
    ensures Arranged(s, cmp, Sorted(s, cmp)) && multiset(Sorted(s, cmp)) == multiset(s)
    decreases |s|
  {
    if |s| >= 2 {
      var h := |s| / 2;
      PreorderParts(s, h, cmp);
      hide Preorder, Arranged;
      SortedArranged(s[..h], cmp);
      SortedArranged(s[h..], cmp);
      SortedMembers(s[..h], cmp);
      SortedMembers(s[h..], cmp);
      MergeHalves(s, h, Sorted(s[..h], cmp), Sorted(s[h..], cmp), cmp);
    }
  }

  lemma PartMembers<T>(s: seq<T>, h: nat)
    requires h <= |s|
    ensures forall x :: x in s[..h] || x in s[h..] <==> x in s
  {
    assert s == s[..h] + s[h..];
  }

  lemma SortedMembers<T>(s: seq<T>, cmp: (T, T) -> int)
    ensures forall x :: x in Sorted(s, cmp) <==> x in s
  {
    forall x ensures x in Sorted(s, cmp) <==> x in s {
      assert x in s <==> x in multiset(s);
      assert x in Sorted(s, cmp) <==> x in multiset(Sorted(s, cmp));
    }
  }
}

/** Singly linked lists that are relinked in place. */
module SList {
  import opened MergeOrder

  /** Anything whose first field is a next pointer. */
  class Item {
    var next: Item?
    constructor () ensures next == null { next := null; }
  }

  ghost predicate Distinct(s: seq<Item>) {
    forall i, j :: 0 <= i < j < |s| ==> s[i] != s[j]
  }

  /** The items of s point each to the next and the last one to end. */
  ghost predicate Linked(s: seq<Item>, end: Item?)
    reads s
  {
    (forall i, j :: 0 <= i && j == i + 1 < |s| ==> s[i].next == s[j]) && (s != [] ==> s[|s| - 1].next == end)
  }

  ghost predicate List(head: Item?, s: seq<Item>)
    reads s
  {
    Distinct(s) && Linked(s, null) && head == if s == [] then null else s[0]
  }

  ghost function Backwards(s: seq<Item>): seq<Item> {
    seq(|s|, i requires 0 <= i < |s| => s[|s| - 1 - i])
  }

  /** The index of the first item for which find gives something; |s| if none. */
  ghost function FirstMatch(s: seq<Item>, find: Item -> object?): (k: nat)
    ensures k <= |s| && (k < |s| ==> find(s[k]) != null) && forall i :: 0 <= i < k ==> find(s[i]) == null
  {
    if s == [] || find(s[0]) != null then 0 else 1 + FirstMatch(s[1..], find)
  }

  ghost predicate Disjoint(s: seq<Item>, t: seq<Item>) {
    forall i, j :: 0 <= i < |s| && 0 <= j < |t| ==> s[i] != t[j]
  }

  lemma LinkedConcat(s: seq<Item>, t: seq<Item>, end: Item?)
    requires Linked(t, end) && Linked(s, if t == [] then end else t[0])
    ensures Linked(s + t, end)
  {
  }

  lemma LinkedParts(s: seq<Item>, k: nat, end: Item?)
    requires Linked(s, end) && k <= |s|
    ensures Linked(s[..k], if k == |s| then end else s[k]) && Linked(s[k..], end)
  {
  }

  lemma DistinctConcat(s: seq<Item>, t: seq<Item>)
    ensures Distinct(s + t) <==> Distinct(s) && Distinct(t) && Disjoint(s, t)
  {
    var c := s + t;
    if Distinct(c) {
      assert forall i :: 0 <= i < |s| ==> c[i] == s[i];
      assert forall i :: 0 <= i < |t| ==> c[|s| + i] == t[i];
      forall i, j | 0 <= i < |s| && 0 <= j < |t| ensures s[i] != t[j] {
        assert c[i] != c[|s| + j];
      }
    }
  }

  /** slist_concat */
  method Concat(head: Item?, tail: Item?, ghost s: seq<Item>, ghost t: seq<Item>) returns (r: Item?)
    requires List(head, s) && List(tail, t) && Disjoint(s, t)
    modifies s
    ensures List(r, s + t)
  {
    DistinctConcat(s, t);
    if head == null {
      assert s + t == t;
      return tail;
    }
    var last := head;
    ghost var i := 0;
    assert |s| > 1 ==> last.next == s[1];
    while last.next != null
      invariant 0 <= i < |s| && last == s[i] && (last.next == null <==> i + 1 == |s|)
      decreases |s| - i
    {
      assert last.next == s[i + 1];
      last := last.next;
      i := i + 1;
      assert i + 1 < |s| ==> last.next == s[i + 1];
    }
    last.next := tail;
    LinkedConcat(s, t, null);
    return head;
  }

  /** slist_reverse */
  method Reverse(slist: Item?, ghost s: seq<Item>) returns (result: Item?)
    requires List(slist, s)
    modifies s
    ensures List(result, Backwards(s))
  {
    result := null;
    var rest := slist;
    ghost var n := 0;
    while rest != null
      invariant 0 <= n <= |s| && rest == if n == |s| then null else s[n]
      invariant result == if n == 0 then null else s[n - 1]
      invariant n > 0 ==> s[0].next == null
      invariant n < |s| ==> s[|s| - 1].next == null
      invariant forall k, j :: 0 <= j && k == j + 1 < n ==> s[k].next == s[j]
      invariant forall k, j :: n <= k && j == k + 1 < |s| ==> s[k].next == s[j]
      decreases |s| - n
    {
      var next := rest.next;
      rest.next := result;
      result := rest;
      rest := next;
      n := n + 1;
    }
  }

  /** Relinks the item before position k past it. */
  method Unlink(head: Item, h: Item, ghost s: seq<Item>, ghost k: nat) returns (stale: Item)
    requires List(head, s) && 0 < k < |s| && h == s[k - 1]
    modifies h
    ensures stale == s[k] && List(head, s[..k] + s[k + 1..])
  {
    LinkedParts(s, k, null);
    LinkedParts(s, k + 1, null);
    assert h.next == s[k];
    stale := h.next;
    h.next := stale.next;
    LinkedConcat(s[..k], s[k + 1..], null);
  }

  /** slist_remove: takes out the first item for which find gives something, and returns what it gave. */
  method Remove(head: Item?, find: Item -> object?, ghost s: seq<Item>) returns (r: Item?, result: object?)
    requires List(head, s)
    modifies s
    ensures var k := FirstMatch(s, find);
            if k == |s| then result == null && r == head && List(r, s)
            else result == find(s[k]) && List(r, s[..k] + s[k + 1..])
  {
    hide List, Linked, Distinct;
    r, result := head, null;
    if head == null {
      EmptyList(s);
      return;
    }
    HeadOf(head, s);
    result := find(head);
    if result != null {
      assert s[..0] + s[1..] == s[1..];
      r := head.next;
      return;
    }
    result := RemoveBehind(head, find, s);
  }

  lemma EmptyList(s: seq<Item>)
    requires List(null, s)
    ensures s == []
  {
  }

  /** The rest of slist_remove, when the head does not match. */
  method RemoveBehind(head: Item, find: Item -> object?, ghost s: seq<Item>) returns (result: object?)
    requires List(head, s) && find(head) == null
    modifies s
    ensures var k := FirstMatch(s, find);
            0 < k && if k == |s| then result == null && List(head, s)
                     else result == find(s[k]) && List(head, s[..k] + s[k + 1..])
  {
    var h := head;
    result := null;
    ghost var i := 0;
    NextOf(head, s, 0);
    hide List, Linked, Distinct;
    while h.next != null
      invariant i < |s| && h == s[i] && List(head, s) && i < FirstMatch(s, find) && result == null
      invariant h.next == if i + 1 < |s| then s[i + 1] else null
      decreases |s| - i
    {
      result := find(h.next);
      if result != null {
        var _ := Unlink(head, h, s, i + 1);
        return;
      }
      h := h.next;
      i := i + 1;
      NextOf(head, s, i);
    }
  }

  lemma HeadOf(head: Item, s: seq<Item>)
    requires List(head, s)
    ensures s != [] && head == s[0] && List(head.next, s[1..])
  {
    LinkedParts(s, 1, null);
    assert |s| > 1 ==> s[0].next == s[1];
  }

  lemma NextOf(head: Item?, s: seq<Item>, i: nat)
    requires List(head, s) && i < |s|
    ensures head == s[0] && s[i].next == if i + 1 < |s| then s[i + 1] else null
  {
  }

  /** The items merged so far, sentinel first; the last link is still to be written. */
  ghost predicate Chain(c: seq<Item>, insert: Item)
    reads c, insert
  {
    c != [] && insert == c[|c| - 1] && Distinct(c) && Linked(c, insert.next)
  }

  /** The state of a merge: the chain so far and what is left of the two lists share no item. */
  ghost predicate Merging(insert: Item, a: Item?, b: Item?, c: seq<Item>, x: seq<Item>, y: seq<Item>)
    reads insert, c, x, y
  {
    Chain(c, insert) && List(a, x) && List(b, y) && Disjoint(c, x) && Disjoint(c, y) && Disjoint(x, y)
  }

  /** One step of the merge: links x's head behind the chain. */
  method Link(insert: Item, a: Item, b: Item?, ghost c: seq<Item>, ghost x: seq<Item>, ghost y: seq<Item>)
    returns (next: Item?)
    requires Merging(insert, a, b, c, x, y)
    modifies insert`next
    ensures Merging(a, next, b, c + [a], x[1..], y)
  {
    insert.next := a;
    LinkedParts(x, 1, null);
    LinkedConcat(c, [a], a.next);
    next := a.next;
  }

  lemma MergingSwaps(insert: Item, a: Item?, b: Item?, c: seq<Item>, x: seq<Item>, y: seq<Item>)
    requires Merging(insert, a, b, c, x, y)
    ensures Merging(insert, b, a, c, y, x)
  {
  }

  /** Takes the lower head, the left one on a tie. */
  method MergeOne(insert: Item, a: Item, b: Item, cmp: (Item, Item) -> int,
                  ghost c: seq<Item>, ghost x: seq<Item>, ghost y: seq<Item>)
    returns (taken: Item, a': Item?, b': Item?, ghost x': seq<Item>, ghost y': seq<Item>)
    requires Merging(insert, a, b, c, x, y)
    modifies insert`next
    ensures Merging(taken, a', b', c + [taken], x', y')
    ensures Merge(x, y, cmp) == [taken] + Merge(x', y', cmp)
    ensures taken in x + y && |x'| + |y'| < |x| + |y| && (forall o <- x' + y' :: o in x + y)
  {
    assert a == x[0] && b == y[0];
    if cmp(a, b) <= 0 {
      var next := Link(insert, a, b, c, x, y);
      taken, a', b', x', y' := a, next, b, x[1..], y;
    } else {
      MergingSwaps(insert, a, b, c, x, y);
      var next := Link(insert, b, a, c, y, x);
      MergingSwaps(b, next, a, c + [b], y[1..], x);
      taken, a', b', x', y' := b, a, next, x, y[1..];
    }
    hide Merging;
  }

  /** Links the rest behind the chain and drops the sentinel. */
  method Finish(merged: Item, insert: Item, a: Item?, b: Item?, ghost done: seq<Item>,
                ghost x: seq<Item>, ghost y: seq<Item>, cmp: (Item, Item) -> int)
    returns (m: Item?)
    requires Merging(insert, a, b, [merged] + done, x, y) && (a == null || b == null)
    modifies insert`next
    ensures List(m, done + Merge(x, y, cmp))
  {
    ghost var c, z := [merged] + done, if a != null then x else y;
    assert Merge(x, y, cmp) == z;
    insert.next := if a != null then a else b;
    LinkedConcat(c, z, null);
    DistinctConcat(c, z);
    LinkedParts(c + z, 1, null);
    assert (c + z)[1..] == done + z;
    m := merged.next;
    assert done + z != [] ==> (c + z)[0].next == (c + z)[1];
  }

  method Start(left: Item?, right: Item?, ghost l: seq<Item>, ghost r: seq<Item>) returns (merged: Item)
    requires List(left, l) && List(right, r) && Disjoint(l, r)
    ensures fresh(merged) && Merging(merged, left, right, [merged], l, r)
  {
    merged := new Item();
  }

  /** slist_sort_merge, with its sentinel on the stack. */
  method SortMerge(left: Item?, right: Item?, cmp: (Item, Item) -> int, ghost l: seq<Item>, ghost r: seq<Item>)
    returns (m: Item?)
    requires List(left, l) && List(right, r) && Disjoint(l, r)
    modifies l, r
    ensures List(m, Merge(l, r, cmp))
  {
    hide *;
    var merged := Start(left, right, l, r);
    var insert: Item, a, b := merged, left, right;
    ghost var done: seq<Item>, x, y := [], l, r;
    assert [merged] + done == [merged];
    while a != null && b != null
      invariant Merging(insert, a, b, [merged] + done, x, y)
      invariant done + Merge(x, y, cmp) == Merge(l, r, cmp)
      invariant insert == merged || insert in l + r
      invariant forall o <- x + y :: o in l + r
      decreases |x| + |y|
    {
      ghost var was := done;
      insert, a, b, x, y := MergeOne(insert, a, b, cmp, [merged] + done, x, y);
      done := done + [insert];
      assert [merged] + was + [insert] == [merged] + done;
    }
    m := Finish(merged, insert, a, b, done, x, y, cmp);
  }

  /** The two-step walk of slist_sort: cuts a list of two or more items into two non-empty halves. */
  method Split(slist: Item, ghost s: seq<Item>) returns (right: Item?)
    requires List(slist, s) && |s| >= 2
    modifies s
    ensures List(slist, s[..|s| / 2]) && List(right, s[|s| / 2..]) && Disjoint(s[..|s| / 2], s[|s| / 2..])
  {
    var walk := slist;
    right := slist.next;
    ghost var i := 0;
    while right != null
      invariant 0 <= i && 2 * i + 1 < |s| && walk == s[i] && right == s[2 * i + 1]
      decreases |s| - i
    {
      assert 2 * i + 2 < |s| ==> right.next == s[2 * i + 2];
      right := right.next;
      if right == null { break; }
      assert 2 * i + 3 < |s| ==> right.next == s[2 * i + 3];
      right := right.next;
      if right == null { break; }
      assert right == s[2 * i + 3];
      walk := walk.next;
      i := i + 1;
    }
    assert i + 1 == |s| / 2;
    right := CutAfter(slist, walk, s, i + 1);
  }

  /** Ends the list behind its h-th item and returns the rest. */
  method CutAfter(head: Item, walk: Item, ghost s: seq<Item>, ghost h: nat) returns (right: Item?)
    requires List(head, s) && 0 < h < |s| && walk == s[h - 1]
    modifies walk
    ensures List(head, s[..h]) && List(right, s[h..]) && Disjoint(s[..h], s[h..])
  {
    LinkedParts(s, h, null);
    right := walk.next;
    walk.next := null;
  }

  lemma SortedFrom(s: seq<Item>, cmp: (Item, Item) -> int)
    ensures forall i :: 0 <= i < |Sorted(s, cmp)| ==> Sorted(s, cmp)[i] in s
  {
    var r := Sorted(s, cmp);
    hide Sorted;
    forall i | 0 <= i < |r| ensures r[i] in s { assert r[i] in multiset(r) && multiset(r) == multiset(s); }
  }

  lemma SortedApart(a: seq<Item>, b: seq<Item>, cmp: (Item, Item) -> int)
    requires Disjoint(a, b)
    ensures Disjoint(Sorted(a, cmp), Sorted(b, cmp)) && Disjoint(Sorted(a, cmp), b)
  {
    SortedFrom(a, cmp);
    SortedFrom(b, cmp);
    hide Sorted;
  }

  /**
   * slist_sort: relinks exactly the items it was given; if the comparator is a total preorder on them, the
   * result is in order and equivalent items keep their order.
   */
  method Sort(slist: Item?, cmp: (Item, Item) -> int, ghost s: seq<Item>) returns (r: Item?)
    requires List(slist, s)
    modifies s
    ensures List(r, Sorted(s, cmp)) && multiset(Sorted(s, cmp)) == multiset(s)
    ensures Preorder(s, cmp) ==> Arranged(s, cmp, Sorted(s, cmp))
    decreases |s|, 2
  {
    hide *;
    if Preorder(s, cmp) { SortedArranged(s, cmp); }
    ListShape(slist, s);
    SortedShape(s, cmp);
    if slist == null { return slist; }
    if slist.next == null { return slist; }
    var right := Split(slist, s);
    r := SortBoth(slist, right, cmp, s[..|s| / 2], s[|s| / 2..]);
  }

  lemma ListShape(head: Item?, s: seq<Item>)
    requires List(head, s)
    ensures (head == null <==> s == []) && (head != null ==> (head.next == null <==> |s| == 1))
  {
    assert |s| > 1 ==> s[0].next == s[1];
  }

  lemma SortedShape(s: seq<Item>, cmp: (Item, Item) -> int)
    ensures Sorted(s, cmp) == if |s| < 2 then s
                              else Merge(Sorted(s[..|s| / 2], cmp), Sorted(s[|s| / 2..], cmp), cmp)
  {
  }

  /** Sorts both halves, then merges the two. */
  method SortBoth(left: Item?, right: Item?, cmp: (Item, Item) -> int, ghost a: seq<Item>, ghost b: seq<Item>)
    returns (r: Item?)
    requires List(left, a) && List(right, b) && a != [] && b != [] && Disjoint(a, b)
    modifies a, b
    ensures List(r, Merge(Sorted(a, cmp), Sorted(b, cmp), cmp))
    decreases |a| + |b|, 1
  {
    SortedFrom(a, cmp);
    SortedFrom(b, cmp);
    SortedApart(a, b, cmp);
    hide *;
    var l', r' := SortEach(left, right, cmp, a, b);
    r := SortMerge(l', r', cmp, Sorted(a, cmp), Sorted(b, cmp));
  }

  method SortEach(left: Item?, right: Item?, cmp: (Item, Item) -> int, ghost a: seq<Item>, ghost b: seq<Item>)
    returns (l': Item?, r': Item?)
    requires List(left, a) && List(right, b) && a != [] && b != [] && Disjoint(a, b)
    modifies a, b
    ensures List(l', Sorted(a, cmp)) && List(r', Sorted(b, cmp))
    decreases |a| + |b|, 0
  {
    SortedApart(a, b, cmp);
    DisjointSwaps(a, b);
    DisjointSwaps(Sorted(a, cmp), b);
    hide *;
    l' := SortBeside(left, cmp, a, right, b);
    r' := SortBeside(right, cmp, b, l', Sorted(a, cmp));
  }

  lemma DisjointSwaps(s: seq<Item>, t: seq<Item>)
    requires Disjoint(s, t)
    ensures Disjoint(t, s)
  {
  }

  /** Sorting one list leaves a list apart from it as it is. */
  method SortBeside(slist: Item?, cmp: (Item, Item) -> int, ghost s: seq<Item>, ghost other: Item?, ghost t: seq<Item>)
    returns (r: Item?)
    requires List(slist, s) && List(other, t) && Disjoint(s, t)
    modifies s
    ensures List(r, Sorted(s, cmp)) && List(other, t)
    decreases |s|, 3
  {
    hide List, Linked, Distinct, Merge, Sorted;
    r := Sort(slist, cmp, s);
  }
}
