/** The order and the 256-entry index of one ChannelElement, as facts about sequences of channel values. */
module ChannelIndex {
  import opened CStrings
  import opened Sequences
  import opened OpRecords
  import opened Notes
  import opened Channels

  /** GetCEHash: position of a name inside its element. */
  function CeHash(name: CString): (h: nat)
    ensures h < 256
  {
    if |name| >= 3 then ToUpper(name[2]) else 0
  }

  /** GetDBHash: the element a name belongs to. */
  function DbHash(name: CString): (h: nat)
    ensures h < 256
  {
    if |name| >= 2 then ToUpper(name[1]) else 0
  }

  lemma FoldKeepsHashes(a: CString, b: CString)
    requires IrcFold(a) == IrcFold(b)
    ensures CeHash(a) == CeHash(b) && DbHash(a) == DbHash(b)
  {
    assert |a| == |b|;
    if |a| >= 3 { assert IrcFold(a)[2] == ToUpper(a[2]) && IrcFold(b)[2] == ToUpper(b[2]); }
    if |a| >= 2 { assert IrcFold(a)[1] == ToUpper(a[1]) && IrcFold(b)[1] == ToUpper(b[1]); }
  }

  /** Two names belong to one element exactly if their second bytes are alike, and share a place by their third. */
  lemma HashExact(a: CString, b: CString)
    ensures DbHash(a) == DbHash(b) <==>
            if |a| < 2 || |b| < 2 then |a| < 2 && |b| < 2 else Cases(a[1], b[1], 0x5e)
    ensures CeHash(a) == CeHash(b) <==>
            if |a| < 3 || |b| < 3 then |a| < 3 && |b| < 3 else Cases(a[2], b[2], 0x5e)
  {
  }

  ghost function Id(c: Chan): CString {
    IrcFold(c.name)
  }

  ghost predicate DistinctNames(chs: seq<Chan>) {
    forall i, j :: 0 <= i < j < |chs| ==> Id(chs[i]) != Id(chs[j])
  }

  /** b separates the channels with a sub-hash below g from the rest. */
  ghost predicate Boundary(chs: seq<Chan>, b: int, g: nat) {
    0 <= b <= |chs| && forall i :: 0 <= i < |chs| ==> (i < b <==> CeHash(chs[i].name) < g)
  }

  /** subsort starts each sub-hash group where it starts, and no name occurs twice. */
  ghost predicate Indexed(chs: seq<Chan>, sub: seq<int>) {
    && |sub| == 256
    && (forall h :: 0 <= h < 256 ==> Boundary(chs, sub[h], h))
    && DistinctNames(chs)
  }

  /** How many channels have a sub-hash below h. */
  ghost function Below(chs: seq<Chan>, h: nat): nat {
    if chs == [] then 0
    else Below(chs[..|chs| - 1], h) + (if CeHash(chs[|chs| - 1].name) < h then 1 else 0)
  }

  ghost predicate Grouped(chs: seq<Chan>) {
    forall i, j :: 0 <= i < j < |chs| ==> CeHash(chs[i].name) <= CeHash(chs[j].name)
  }

  lemma {:induction false} BelowBoundary(chs: seq<Chan>, h: nat, b: nat)
    requires b <= |chs| && forall i :: 0 <= i < |chs| ==> (i < b <==> CeHash(chs[i].name) < h)
    ensures b == Below(chs, h)
  {
    if chs != [] {
      var n := |chs| - 1;
      BelowBoundary(chs[..n], h, if b == |chs| then n else b);
    }
  }

  lemma {:induction false} GroupedBoundary(chs: seq<Chan>, h: nat)
    requires Grouped(chs)
    ensures Below(chs, h) <= |chs|
    ensures forall i :: 0 <= i < |chs| ==> (i < Below(chs, h) <==> CeHash(chs[i].name) < h)
  {
    if chs != [] {
      var n := |chs| - 1;
      GroupedBoundary(chs[..n], h);
      assert forall i :: 0 <= i < n ==> chs[..n][i] == chs[i];
      if CeHash(chs[n].name) < h && n > 0 { assert CeHash(chs[n - 1].name) < h; }
    }
  }

  /** The index invariant, said the other way: grouped by sub-hash, counted by subsort, names unique. */
  lemma IndexedCounts(chs: seq<Chan>, sub: seq<int>)
    ensures Indexed(chs, sub) <==>
            && |sub| == 256
            && (forall h :: 0 <= h < 256 ==> sub[h] == Below(chs, h))
            && Grouped(chs) && DistinctNames(chs)
  {
    if Indexed(chs, sub) {
      forall h | 0 <= h < 256 ensures sub[h] == Below(chs, h) { BelowBoundary(chs, h, sub[h]); }
      forall i, j | 0 <= i < j < |chs| ensures CeHash(chs[i].name) <= CeHash(chs[j].name) {
        var h := CeHash(chs[i].name);
        assert !(i < sub[h]);
        assert !(j < sub[h]);
      }
    }
    if |sub| == 256 && (forall h :: 0 <= h < 256 ==> sub[h] == Below(chs, h)) && Grouped(chs) && DistinctNames(chs) {
      forall h | 0 <= h < 256
        ensures sub[h] <= |chs| && forall i :: 0 <= i < |chs| ==> (i < sub[h] <==> CeHash(chs[i].name) < h)
      {
        GroupedBoundary(chs, h);
      }
    }
  }

  // ---------------------------------------------------------------- the map an element stands for

  ghost function ToMap(chs: seq<Chan>): (m: map<CString, Chan>)
    requires DistinctNames(chs)
    ensures forall i :: 0 <= i < |chs| ==> Id(chs[i]) in m && m[Id(chs[i])] == chs[i]
    ensures forall k :: k in m ==> exists i :: 0 <= i < |chs| && Id(chs[i]) == k
  {
    map i | 0 <= i < |chs| :: Id(chs[i]) := chs[i]
  }

  /** One entry of the map of a list of channels was set. */
  ghost predicate MapStep(a: seq<Chan>, b: seq<Chan>, id: CString, v: Chan) {
    DistinctNames(a) && DistinctNames(b) && ToMap(b) == ToMap(a)[id := v]
  }

  ghost function Bumped(sub: seq<int>, h: nat): (r: seq<int>)
    ensures |r| == |sub|
  {
    seq(|sub|, i requires 0 <= i < |sub| => if i > h then sub[i] + 1 else sub[i])
  }

  ghost function Dropped(sub: seq<int>, h: nat): (r: seq<int>)
    ensures |r| == |sub|
  {
    seq(|sub|, i requires 0 <= i < |sub| => if i > h then sub[i] - 1 else sub[i])
  }

  ghost function InsertedAt(chs: seq<Chan>, r: nat, c: Chan): seq<Chan>
    requires r <= |chs|
  {
    chs[..r] + [c] + chs[r..]
  }

  lemma InsertIndexed(chs: seq<Chan>, sub: seq<int>, c: Chan)
    requires Indexed(chs, sub) && Id(c) !in ToMap(chs)
    ensures var r := sub[CeHash(c.name)];
            var ins := InsertedAt(chs, r, c);
            Indexed(ins, Bumped(sub, CeHash(c.name))) && ToMap(ins) == ToMap(chs)[Id(c) := c]
  {
    var h := CeHash(c.name);
    InsertDistinct(chs, sub[h], c);
    forall g | 0 <= g < 256 ensures Boundary(InsertedAt(chs, sub[h], c), Bumped(sub, h)[g], g) {
      InsertBoundary(chs, sub, c, g);
    }
    MapInsert(chs, sub[h], c);
  }

  /** A channel whose name is new, put in front of its group. */
  lemma InsertStep(chs: seq<Chan>, sub: seq<int>, name: CString)
    requires Indexed(chs, sub) && IrcFold(name) !in ToMap(chs)
    ensures var h := CeHash(name);
            var ins := InsertedAt(chs, sub[h], NewChan(name));
            Indexed(ins, Bumped(sub, h)) && MapStep(chs, ins, IrcFold(name), NewChan(name))
  {
    assert Id(NewChan(name)) == IrcFold(name);
    InsertIndexed(chs, sub, NewChan(name));
    hide InsertedAt, NewChan, ToMap;
  }

  lemma InsertDistinct(chs: seq<Chan>, r: nat, c: Chan)
    requires DistinctNames(chs) && r <= |chs| && Id(c) !in ToMap(chs)
    ensures DistinctNames(InsertedAt(chs, r, c))
  {
    NotNamed(chs, Id(c));
    hide Id, ToMap, InsertedAt;
    var n := InsertedAt(chs, r, c);
    forall i, j | 0 <= i < j < |n| ensures Id(n[i]) != Id(n[j]) {
      Inserted(chs, r, c, i);
      Inserted(chs, r, c, j);
    }
  }

  lemma Inserted(chs: seq<Chan>, r: nat, c: Chan, i: nat)
    requires r <= |chs| && i < |InsertedAt(chs, r, c)|
    ensures |InsertedAt(chs, r, c)| == |chs| + 1
    ensures InsertedAt(chs, r, c)[i] == if i == r then c else chs[if i < r then i else i - 1]
  {
  }

  lemma NotNamed(chs: seq<Chan>, k: CString)
    requires DistinctNames(chs) && k !in ToMap(chs)
    ensures forall i :: 0 <= i < |chs| ==> Id(chs[i]) != k
  {
    hide Id;
  }

  lemma InsertBoundary(chs: seq<Chan>, sub: seq<int>, c: Chan, g: nat)
    requires Indexed(chs, sub) && g < 256
    ensures var h := CeHash(c.name); Boundary(InsertedAt(chs, sub[h], c), Bumped(sub, h)[g], g)
  {
    var h := CeHash(c.name);
    var r := sub[h];
    var n := InsertedAt(chs, r, c);
    BoundariesRise(chs, sub, h, g);
    forall i | 0 <= i < |n| ensures i < Bumped(sub, h)[g] <==> CeHash(n[i].name) < g {
      if i == r {
        assert n[i] == c;
      } else {
        var k := if i < r then i else i - 1;
        assert n[i] == chs[k];
        assert k < sub[g] <==> CeHash(chs[k].name) < g;
        assert k < sub[h] <==> CeHash(chs[k].name) < h;
      }
    }
  }

  lemma BoundariesRise(chs: seq<Chan>, sub: seq<int>, h: nat, g: nat)
    requires Indexed(chs, sub) && h < 256 && g < 256
    ensures g <= h ==> sub[g] <= sub[h]
    ensures g >= h ==> sub[g] >= sub[h]
  {
    if g < h && sub[h] < |chs| {
      assert CeHash(chs[sub[h]].name) >= h;
    }
    if g > h && sub[g] < |chs| {
      assert CeHash(chs[sub[g]].name) >= g;
    }
  }

  lemma MapLookup(chs: seq<Chan>, k: CString) returns (i: nat)
    requires DistinctNames(chs) && k in ToMap(chs)
    ensures i < |chs| && Id(chs[i]) == k && ToMap(chs)[k] == chs[i]
  {
    i :| i < |chs| && Id(chs[i]) == k;
  }

  lemma SameMap(m: map<CString, Chan>, q: map<CString, Chan>)
    requires forall k :: k in m ==> k in q && m[k] == q[k]
    requires forall k :: k in q ==> k in m
    ensures m == q
  {
  }

  lemma MapInsert(chs: seq<Chan>, r: nat, c: Chan)
    requires DistinctNames(chs) && r <= |chs| && DistinctNames(InsertedAt(chs, r, c))
    ensures ToMap(InsertedAt(chs, r, c)) == ToMap(chs)[Id(c) := c]
  {
    hide Id, ToMap;
    var n := InsertedAt(chs, r, c);
    var m, q := ToMap(n), ToMap(chs)[Id(c) := c];
    assert n[r] == c;
    forall k | k in m ensures k in q && m[k] == q[k] {
      var i := MapLookup(n, k);
      if i != r { assert n[i] == chs[if i < r then i else i - 1]; }
    }
    forall k | k in q ensures k in m {
      if k != Id(c) {
        var i := MapLookup(chs, k);
        assert chs[i] == n[if i < r then i else i + 1];
      }
    }
    SameMap(m, q);
  }

  ghost function RemovedAt(chs: seq<Chan>, i: nat): seq<Chan>
    requires i < |chs|
  {
    chs[..i] + chs[i + 1..]
  }

  lemma RemoveIndexed(chs: seq<Chan>, sub: seq<int>, i: nat)
    requires Indexed(chs, sub) && i < |chs|
    ensures Indexed(RemovedAt(chs, i), Dropped(sub, CeHash(chs[i].name)))
    ensures ToMap(RemovedAt(chs, i)) == ToMap(chs) - {Id(chs[i])}
  {
    RemoveDistinct(chs, i);
    forall g | 0 <= g < 256 ensures Boundary(RemovedAt(chs, i), Dropped(sub, CeHash(chs[i].name))[g], g) {
      RemoveBoundary(chs, sub, i, g);
    }
    MapRemove(chs, i);
  }

  lemma RemoveDistinct(chs: seq<Chan>, i: nat)
    requires DistinctNames(chs) && i < |chs|
    ensures DistinctNames(RemovedAt(chs, i))
  {
    var n := RemovedAt(chs, i);
    forall a, b | 0 <= a < b < |n| ensures Id(n[a]) != Id(n[b]) {
      assert n[a] == chs[if a < i then a else a + 1] && n[b] == chs[if b < i then b else b + 1];
    }
  }

  lemma RemoveBoundary(chs: seq<Chan>, sub: seq<int>, i: nat, g: nat)
    requires Indexed(chs, sub) && i < |chs| && g < 256
    ensures Boundary(RemovedAt(chs, i), Dropped(sub, CeHash(chs[i].name))[g], g)
  {
    var n, h := RemovedAt(chs, i), CeHash(chs[i].name);
    assert i < sub[g] <==> h < g;
    forall j | 0 <= j < |n| ensures j < Dropped(sub, h)[g] <==> CeHash(n[j].name) < g {
      var k := if j < i then j else j + 1;
      assert n[j] == chs[k];
      assert k < sub[g] <==> CeHash(chs[k].name) < g;
    }
  }

  lemma MapRemove(chs: seq<Chan>, i: nat)
    requires DistinctNames(chs) && i < |chs| && DistinctNames(RemovedAt(chs, i))
    ensures ToMap(RemovedAt(chs, i)) == ToMap(chs) - {Id(chs[i])}
  {
    hide Id, ToMap;
    var n := RemovedAt(chs, i);
    var m, q := ToMap(n), ToMap(chs) - {Id(chs[i])};
    forall k | k in m ensures k in q && m[k] == q[k] {
      var j := MapLookup(n, k);
      var o := if j < i then j else j + 1;
      assert n[j] == chs[o];
      assert Id(chs[o]) != Id(chs[i]);
    }
    forall k | k in q ensures k in m {
      var j := MapLookup(chs, k);
      assert chs[j] == n[if j < i then j else j - 1];
    }
    SameMap(m, q);
  }

  /** Changing a channel's contents but not its name moves nothing. */
  lemma UpdateIndexed(chs: seq<Chan>, sub: seq<int>, i: nat, c: Chan)
    requires Indexed(chs, sub) && i < |chs| && c.name == chs[i].name
    ensures Indexed(chs[i := c], sub)
    ensures ToMap(chs[i := c]) == ToMap(chs)[Id(c) := c]
  {
    var n := chs[i := c];
    SameNames(chs, n, sub);
    MapUpdate(chs, i, c);
  }

  lemma SameNames(chs: seq<Chan>, n: seq<Chan>, sub: seq<int>)
    requires Indexed(chs, sub) && |n| == |chs|
    requires forall j :: 0 <= j < |chs| ==> n[j].name == chs[j].name
    ensures Indexed(n, sub)
  {
    forall h | 0 <= h < 256 ensures Boundary(n, sub[h], h) {
      assert Boundary(chs, sub[h], h);
    }
    forall i, j | 0 <= i < j < |n| ensures Id(n[i]) != Id(n[j]) {
      assert Id(chs[i]) != Id(chs[j]);
    }
  }

  lemma MapUpdate(chs: seq<Chan>, i: nat, c: Chan)
    requires DistinctNames(chs) && i < |chs| && Id(c) == Id(chs[i]) && DistinctNames(chs[i := c])
    ensures ToMap(chs[i := c]) == ToMap(chs)[Id(c) := c]
  {
    hide Id, ToMap;
    var n := chs[i := c];
    var m, q := ToMap(n), ToMap(chs)[Id(c) := c];
    forall k | k in m ensures k in q && m[k] == q[k] {
      var j := MapLookup(n, k);
      assert j == i || (n[j] == chs[j] && Id(chs[j]) in ToMap(chs));
    }
    forall k | k in q ensures k in m {
      if k != Id(c) {
        var j := MapLookup(chs, k);
        assert n[j] == chs[j];
      } else {
        assert n[i] == c;
      }
    }
    SameMap(m, q);
  }

  /** The search for a new name's place moves past the start of its group only if the name is stored already. */
  lemma SpotOfNew(chs: seq<Chan>, start: nat, r: nat, id: CString)
    requires DistinctNames(chs) && start <= r <= |chs|
    requires forall j :: start <= j < r ==> Id(chs[j]) == id
    ensures start < r ==> id in ToMap(chs)
  {
    if start < r { assert Id(chs[start]) == id; }
  }

  // ---------------------------------------------------------------- daily rollover of one element

  /** A channel stays in the database while it has a scoring op, a flag or a note. */
  ghost predicate Keeps(c: Chan) {
    c.ops != [] || c.flag != 0 || NoteList(c.notes) != []
  }

  ghost predicate AllValid(chs: seq<Chan>) {
    forall i :: 0 <= i < |chs| ==> ValidChan(chs[i])
  }

  /** Every channel rolled over once, in order, and the ones with nothing left dropped. */
  ghost function Rollover(chs: seq<Chan>, d: nat): (r: seq<Chan>)
    requires AllValid(chs) && d < DAYSAMPLES
    ensures |r| <= |chs|
  {
    if chs == [] then []
    else
      var c := RollChan(chs[|chs| - 1], d);
      Rollover(chs[..|chs| - 1], d) + (if Keeps(c) then [c] else [])
  }

  /** The channels once the new day's counters are nulled and the ops resorted. */
  ghost function Resorted(chs: seq<Chan>, d: nat): (r: seq<Chan>)
    requires AllValid(chs) && d < DAYSAMPLES
    ensures |r| == |chs| && forall i :: 0 <= i < |chs| ==> r[i] == SortChan(ClearChan(chs[i], d))
  {
    seq(|chs|, i requires 0 <= i < |chs| => SortChan(ClearChan(chs[i], d)))
  }

  ghost function ClearedAll(chs: seq<Chan>, d: nat): (r: seq<Chan>)
    requires AllValid(chs) && d < DAYSAMPLES
    ensures |r| == |chs| && forall i :: 0 <= i < |chs| ==> r[i] == ClearChan(chs[i], d)
  {
    seq(|chs|, i requires 0 <= i < |chs| => ClearChan(chs[i], d))
  }

  lemma RolloverStep(chs: seq<Chan>, d: nat, j: nat)
    requires AllValid(chs) && d < DAYSAMPLES && j < |chs|
    ensures Rollover(chs[..j + 1], d) ==
            Rollover(chs[..j], d) + (if Keeps(RollChan(chs[j], d)) then [RollChan(chs[j], d)] else [])
  {
    assert chs[..j + 1][..j] == chs[..j];
  }

  ghost predicate ValidMap(m: map<CString, Chan>) {
    forall k <- m.Keys :: ValidChan(m[k])
  }

  /** What the rollover leaves behind, as a map: every surviving channel rolled over, nothing else. */
  ghost function RolloverMap(m: map<CString, Chan>, d: nat): map<CString, Chan>
    requires d < DAYSAMPLES && ValidMap(m)
  {
    map k <- m.Keys | Keeps(RollChan(m[k], d)) :: RollChan(m[k], d)
  }

  lemma {:induction false} RolloverAsMap(chs: seq<Chan>, d: nat)
    requires AllValid(chs) && DistinctNames(chs) && d < DAYSAMPLES
    ensures DistinctNames(Rollover(chs, d)) && AllValid(Rollover(chs, d)) && ValidMap(ToMap(chs))
    ensures ToMap(Rollover(chs, d)) == RolloverMap(ToMap(chs), d)
  {
    hide *;
    MapValid(chs);
    if chs == [] {
      EmptyRollover(d);
    } else {
      var n := |chs| - 1;
      var p, c := chs[..n], chs[n];
      SplitLast(chs);
      RolloverAsMap(p, d);
      RollChanValid(c, d);
      RollKeepsName(c, d);
      RolloverMapGrows(ToMap(p), Id(c), c, d);
      assert chs[..n + 1] == chs;
      RolloverStep(chs, d, n);
      var q, e := Rollover(p, d), RollChan(c, d);
      RolloverKeys(ToMap(p), d);
      if Keeps(e) {
        Appended(q, e);
      } else {
        assert q + [] == q;
      }
    }
  }

  lemma EmptyRollover(d: nat)
    requires d < DAYSAMPLES
    ensures Rollover([], d) == [] && DistinctNames([]) && AllValid([]) && ToMap([]) == RolloverMap(ToMap([]), d) == map[]
  {
  }

  lemma RolloverKeys(m: map<CString, Chan>, d: nat)
    requires d < DAYSAMPLES && ValidMap(m)
    ensures RolloverMap(m, d).Keys <= m.Keys
  {
  }

  lemma SplitLast(chs: seq<Chan>)
    requires chs != [] && DistinctNames(chs) && AllValid(chs)
    ensures var p, c := chs[..|chs| - 1], chs[|chs| - 1];
            && DistinctNames(p) && AllValid(p) && ValidChan(c)
            && Id(c) !in ToMap(p) && ToMap(chs) == ToMap(p)[Id(c) := c]
  {
    hide ValidChan, Id;
    var n := |chs| - 1;
    assert InsertedAt(chs[..n], n, chs[n]) == chs;
    MapInsert(chs[..n], n, chs[n]);
    NameIsNew(chs);
  }

  lemma Appended(q: seq<Chan>, e: Chan)
    requires DistinctNames(q) && AllValid(q) && ValidChan(e) && Id(e) !in ToMap(q)
    ensures DistinctNames(q + [e]) && AllValid(q + [e]) && ToMap(q + [e]) == ToMap(q)[Id(e) := e]
  {
    hide ValidChan, Id;
    assert InsertedAt(q, |q|, e) == q + [e];
    InsertDistinct(q, |q|, e);
    MapInsert(q, |q|, e);
  }

  lemma RollKeepsName(c: Chan, d: nat)
    requires ValidChan(c) && d < DAYSAMPLES
    ensures Id(RollChan(c, d)) == Id(c)
  {
  }

  lemma NameIsNew(chs: seq<Chan>)
    requires chs != [] && DistinctNames(chs)
    ensures Id(chs[|chs| - 1]) !in ToMap(chs[..|chs| - 1])
  {
    hide Id;
    var p := chs[..|chs| - 1];
    assert forall i :: 0 <= i < |p| ==> p[i] == chs[i];
  }

  lemma MapValid(chs: seq<Chan>)
    requires AllValid(chs) && DistinctNames(chs)
    ensures ValidMap(ToMap(chs))
  {
    hide ValidChan, Id;
    forall k <- ToMap(chs).Keys ensures ValidChan(ToMap(chs)[k]) {
      var i := MapLookup(chs, k);
    }
  }

  lemma RolloverMapGrows(m: map<CString, Chan>, id: CString, c: Chan, d: nat)
    requires d < DAYSAMPLES && ValidChan(c) && id !in m && ValidMap(m)
    ensures ValidMap(m[id := c])
    ensures RolloverMap(m[id := c], d) ==
            if Keeps(RollChan(c, d)) then RolloverMap(m, d)[id := RollChan(c, d)] else RolloverMap(m, d)
  {
    hide RollChan, Keeps, ValidChan;
  }

  /** The element while the first j of its channels are cleaned up: those are compacted in front. */
  ghost predicate Halfway(c0: seq<Chan>, chs: seq<Chan>, d: nat, j: nat, at: int) {
    && AllValid(c0) && d < DAYSAMPLES && j <= |c0|
    && at == |Rollover(c0[..j], d)| && chs == Rollover(c0[..j], d) + Resorted(c0, d)[j..]
  }

  lemma HalfwayStart(c0: seq<Chan>, d: nat)
    requires AllValid(c0) && d < DAYSAMPLES
    ensures Halfway(c0, Resorted(c0, d), d, 0, 0)
  {
    hide RollChan, Keeps, ValidChan, SortChan, ClearChan;
    assert c0[..0] == [] && Rollover([], d) == [];
    assert [] + Resorted(c0, d)[0..] == Resorted(c0, d);
  }

  lemma HalfwayEnd(c0: seq<Chan>, chs: seq<Chan>, d: nat, at: int)
    requires Halfway(c0, chs, d, |c0|, at)
    ensures chs == Rollover(c0, d)
  {
    hide RollChan, Keeps, ValidChan, SortChan, ClearChan;
    assert c0[..|c0|] == c0 && Resorted(c0, d)[|c0|..] == [];
  }

  /** One round of the cleanup loop: the channel at place |done| is kept or dropped. */
  lemma CleanupStep(c0: seq<Chan>, chs: seq<Chan>, d: nat, j: nat, at: nat, next: seq<Chan>)
    requires j < |c0| && Halfway(c0, chs, d, j, at)
    requires next == if Keeps(RollChan(c0[j], d)) then chs[at := RollChan(c0[j], d)] else chs[..at] + chs[at + 1..]
    ensures Halfway(c0, next, d, j + 1, if Keeps(RollChan(c0[j], d)) then at + 1 else at)
  {
    hide RollChan, Keeps, ValidChan, SortChan, ClearChan, Rollover;
    RolloverStep(c0, d, j);
    AtTheSeam(Rollover(c0[..j], d), Resorted(c0, d), j, RollChan(c0[j], d));
  }

  /** The sorted channel at the head of the rest, cut to its scorers and shrunk, is the rolled-over channel. */
  lemma CutIsRolled(c: Chan, d: nat)
    requires ValidChan(c) && d < DAYSAMPLES
    ensures var m := SortChan(ClearChan(c, d));
            var cut := m.(ops := Positive(m.ops));
            && Descending(m.ops)
            && RollChan(c, d) == cut.(opMax := Shrunk(cut.opMax, |cut.ops|))
            && (cut.ops == [] ==> RollChan(c, d) == cut)
  {
    ClearedWellFormed(c.ops, d);
    StableSortArranges(Cleared(c.ops, d));
  }

  /** Shrinking the op array does not decide whether a channel stays. */
  lemma KeepsRolled(c: Chan, d: nat)
    requires ValidChan(c) && d < DAYSAMPLES
    ensures var m := SortChan(ClearChan(c, d));
            Keeps(m.(ops := Positive(m.ops))) == Keeps(RollChan(c, d))
  {
    CutIsRolled(c, d);
  }
}
