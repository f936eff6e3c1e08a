/** Channel-operator records: fourteen daily counters per user@host, kept in scoring order. */
module OpRecords {
  import opened CStrings

  const DAYSAMPLES := 14
  const MAXOPCOUNT := 256

  datatype Op = Op(user: CString, host: CString, days: seq<nat>)

  function OpKey(o: Op): Key {
    KeyOf(o.user, o.host)
  }

  function Sum(s: seq<nat>): nat {
    if s == [] then 0 else Sum(s[..|s| - 1]) + s[|s| - 1]
  }

  function Score(o: Op): nat {
    Sum(o.days)
  }

  method ScoreOf(o: Op) returns (score: nat)
    ensures score == Score(o)
  {
    score := 0;
    for k := 0 to |o.days|
      invariant score == Sum(o.days[..k])
    {
      assert o.days[..k + 1][..k] == o.days[..k];
      score := score + o.days[k];
    }
    assert o.days[..|o.days|] == o.days;
  }

  lemma {:induction false} SumZero(s: seq<nat>)
    ensures Sum(s) == 0 <==> forall i :: 0 <= i < |s| ==> s[i] == 0
  {
    if s != [] {
      SumZero(s[..|s| - 1]);
      assert forall i :: 0 <= i < |s| - 1 ==> s[..|s| - 1][i] == s[i];
    }
  }

  lemma {:induction false} SumUpdate(s: seq<nat>, i: nat, v: nat)
    requires i < |s|
    ensures Sum(s[i := v]) == Sum(s) - s[i] + v
  {
    var n := |s| - 1;
    if i == n {
      assert s[i := v][..n] == s[..n];
    } else {
      assert s[i := v][..n] == s[..n][i := v];
      SumUpdate(s[..n], i, v);
    }
  }

  // ---------------------------------------------------------------- scoring order

  ghost predicate Descending(s: seq<Op>) {
    forall i, j :: 0 <= i < j < |s| ==> Score(s[i]) >= Score(s[j])
  }

  /** Puts x after the last record that scores at least as much. */
  ghost function Insert(s: seq<Op>, x: Op): (r: seq<Op>)
    ensures |r| == |s| + 1
  {
    if s == [] || Score(s[|s| - 1]) >= Score(x) then s + [x]
    else Insert(s[..|s| - 1], x) + [s[|s| - 1]]
  }

  ghost function StableSort(s: seq<Op>): (r: seq<Op>)
    ensures |r| == |s|
  {
    if s == [] then [] else Insert(StableSort(s[..|s| - 1]), s[|s| - 1])
  }

  /** The records of s that score exactly v, in order. */
  ghost function Scoring(s: seq<Op>, v: nat): (r: seq<Op>) {
    if s == [] then []
    else Scoring(s[..|s| - 1], v) + (if Score(s[|s| - 1]) == v then [s[|s| - 1]] else [])
  }

  lemma {:induction false} ScoringMembers(s: seq<Op>, v: nat)
    ensures forall o :: o in Scoring(s, v) <==> o in s && Score(o) == v
  {
    if s != [] {
      ScoringMembers(s[..|s| - 1], v);
      assert s == s[..|s| - 1] + [s[|s| - 1]];
    }
  }

  ghost predicate SameScoring(r: seq<Op>, s: seq<Op>) {
    forall v: nat :: Scoring(r, v) == Scoring(s, v)
  }

  /** A stable descending arrangement of s: in order, and equal scores keep their order. */
  ghost predicate StableArrangement(r: seq<Op>, s: seq<Op>) {
    Descending(r) && SameScoring(r, s)
  }

  lemma {:induction false} InsertAt(s: seq<Op>, x: Op, k: nat)
    requires k <= |s|
    requires k > 0 ==> Score(s[k - 1]) >= Score(x)
    requires forall i :: k <= i < |s| ==> Score(s[i]) < Score(x)
    ensures Insert(s, x) == s[..k] + [x] + s[k..]
  {
    hide Score;
    if k == |s| {
    } else {
      var p := s[..|s| - 1];
      InsertAt(p, x, k);
      assert p[..k] == s[..k];
      assert p[k..] + [s[|s| - 1]] == s[k..];
    }
  }

  lemma {:induction false} InsertDescends(s: seq<Op>, x: Op)
    requires Descending(s)
    ensures Descending(Insert(s, x))
    ensures forall o :: o in Insert(s, x) <==> o in s || o == x
  {
    if s != [] && Score(s[|s| - 1]) < Score(x) {
      var p, z := s[..|s| - 1], s[|s| - 1];
      InsertDescends(p, x);
      assert forall o :: o in s <==> o in p || o == z;
      var q := Insert(p, x);
      forall i | 0 <= i < |q| ensures Score(q[i]) >= Score(z) {
        assert q[i] in q;
      }
    }
  }

  lemma {:induction false} InsertScoring(s: seq<Op>, x: Op, v: nat)
    ensures Scoring(Insert(s, x), v) == Scoring(s, v) + (if Score(x) == v then [x] else [])
  {
    var r := Insert(s, x);
    if s == [] || Score(s[|s| - 1]) >= Score(x) {
      assert r[..|r| - 1] == s;
    } else {
      InsertScoring(s[..|s| - 1], x, v);
      assert r[..|r| - 1] == Insert(s[..|s| - 1], x);
    }
  }

  /** What the sort computes: a stable arrangement ... */
  lemma {:induction false} StableSortArranges(s: seq<Op>)
    ensures StableArrangement(StableSort(s), s)
    ensures multiset(StableSort(s)) == multiset(s)
  {
    if s != [] {
      var p, x := s[..|s| - 1], s[|s| - 1];
      assert s == p + [x];
      StableSortArranges(p);
      InsertDescends(StableSort(p), x);
      InsertMultiset(StableSort(p), x);
      forall v: nat ensures Scoring(StableSort(s), v) == Scoring(s, v) {
        InsertScoring(StableSort(p), x, v);
      }
    }
  }

  lemma {:induction false} InsertMultiset(s: seq<Op>, x: Op)
    ensures multiset(Insert(s, x)) == multiset(s) + multiset{x}
  {
    if s != [] && Score(s[|s| - 1]) < Score(x) {
      InsertMultiset(s[..|s| - 1], x);
      assert s == s[..|s| - 1] + [s[|s| - 1]];
    }
  }

  /** ... and the only one. */
  lemma {:induction false} StableArrangementUnique(a: seq<Op>, b: seq<Op>)
    requires Descending(a) && Descending(b) && SameScoring(a, b)
    ensures a == b
  {
    if a == [] || b == [] {
      if a != [] { ScoringMembers(a, Score(a[0])); }
      if b != [] { ScoringMembers(b, Score(b[0])); }
    } else {
      var pa, pb := a[..|a| - 1], b[..|b| - 1];
      LeastAgrees(a, b);
      forall v: nat ensures Scoring(pa, v) == Scoring(pb, v) {
        assert Scoring(a, v) == Scoring(b, v);
        assert Scoring(pa, v) == Scoring(a, v)[..|Scoring(pa, v)|];
        assert Scoring(pb, v) == Scoring(b, v)[..|Scoring(pb, v)|];
      }
      StableArrangementUnique(pa, pb);
      assert a == pa + [a[|a| - 1]] && b == pb + [b[|b| - 1]];
    }
  }

  /** Two such lists end in the same record: the last one of the least score. */
  lemma LeastAgrees(a: seq<Op>, b: seq<Op>)
    requires a != [] && b != [] && Descending(a) && Descending(b) && SameScoring(a, b)
    ensures a[|a| - 1] == b[|b| - 1]
  {
    var x, y := a[|a| - 1], b[|b| - 1];
    LeastIsBelow(a, b);
    LeastIsBelow(b, a);
    var sa, sb := Scoring(a, Score(x)), Scoring(b, Score(x));
    assert sa == sb && sa[|sa| - 1] == x && sb[|sb| - 1] == y;
  }

  lemma LeastIsBelow(a: seq<Op>, b: seq<Op>)
    requires a != [] && b != [] && Descending(a) && SameScoring(a, b)
    ensures Score(a[|a| - 1]) <= Score(b[|b| - 1])
  {
    var y := b[|b| - 1];
    ScoringMembers(b, Score(y));
    ScoringMembers(a, Score(y));
    assert y in Scoring(b, Score(y)) && y in a;
  }

  /** A list already in order is left alone. */
  lemma StableSortFixpoint(s: seq<Op>)
    requires Descending(s)
    ensures StableSort(s) == s
  {
    StableSortArranges(s);
    StableArrangementUnique(StableSort(s), s);
  }

  // ---------------------------------------------------------------- registration

  /** Keys are unique and every record holds fourteen 16-bit counters. */
  ghost predicate WellFormed(s: seq<Op>) {
    && (forall i :: 0 <= i < |s| ==> |s[i].days| == DAYSAMPLES)
    && (forall i, k :: 0 <= i < |s| && 0 <= k < |s[i].days| ==> s[i].days[k] < 0x1_0000)
    && (forall i, j :: 0 <= i < j < |s| ==> OpKey(s[i]) != OpKey(s[j]))
  }

  /** chanopmax: eight doubled zero to five times. */
  predicate Capacity(n: nat) {
    n == 8 || n == 16 || n == 32 || n == 64 || n == 128 || n == 256
  }

  function Zeros(): seq<nat> {
    seq(DAYSAMPLES, _ => 0)
  }

  /** Adds one to the 16-bit counter of slot d. */
  function Bump(o: Op, d: nat): Op
    requires d < |o.days|
  {
    o.(days := o.days[d := (o.days[d] + 1) % 0x1_0000])
  }

  ghost predicate HasKey(s: seq<Op>, k: Key) {
    exists i :: 0 <= i < |s| && OpKey(s[i]) == k
  }

  /** The one index at which a well-formed list holds key k. */
  ghost function IndexOf(s: seq<Op>, k: Key): (i: nat)
    requires HasKey(s, k)
    ensures i < |s| && OpKey(s[i]) == k
  {
    var i: nat :| i < |s| && OpKey(s[i]) == k; i
  }

  /** An op record can be counted: it is known already or there is room for one more. */
  ghost predicate Admits(s: seq<Op>, k: Key) {
    HasKey(s, k) || |s| < MAXOPCOUNT
  }

  /** The op list after one registration for user@host in slot d. */
  ghost function Registered(s: seq<Op>, user: CString, host: CString, d: nat): (r: seq<Op>)
    requires WellFormed(s) && d < DAYSAMPLES
  {
    var k := KeyOf(user, host);
    if HasKey(s, k) then s[IndexOf(s, k) := Bump(s[IndexOf(s, k)], d)]
    else if |s| < MAXOPCOUNT then s + [Bump(Op(user, host, Zeros()), d)]
    else s
  }

  lemma RegisteredWellFormed(s: seq<Op>, user: CString, host: CString, d: nat)
    requires WellFormed(s) && d < DAYSAMPLES
    ensures WellFormed(Registered(s, user, host, d))
    ensures |s| <= MAXOPCOUNT ==> |Registered(s, user, host, d)| <= MAXOPCOUNT
    ensures forall k :: HasKey(Registered(s, user, host, d), k) <==>
              HasKey(s, k) || (k == KeyOf(user, host) && Admits(s, k))
  {
    var r := Registered(s, user, host, d);
    var key := KeyOf(user, host);
    if HasKey(s, key) {
      assert forall i :: 0 <= i < |s| ==> OpKey(r[i]) == OpKey(s[i]);
    } else if |s| < MAXOPCOUNT {
      assert OpKey(r[|s|]) == key;
      assert forall i :: 0 <= i < |s| ==> r[i] == s[i];
      forall i | 0 <= i < |s| ensures OpKey(s[i]) != key {}
    }
    forall k ensures HasKey(r, k) <==> HasKey(s, k) || (k == key && Admits(s, k)) {
      if HasKey(s, k) {
        var i := IndexOf(s, k);
        assert OpKey(r[i]) == k;
      }
      if k == key && !HasKey(s, k) && |s| < MAXOPCOUNT {
        assert OpKey(r[|s|]) == k;
      }
    }
  }

  // ---------------------------------------------------------------- daily rollover of one op list

  function ClearSlot(o: Op, d: nat): Op
    requires d < |o.days|
  {
    o.(days := o.days[d := 0])
  }

  ghost function Cleared(s: seq<Op>, d: nat): (r: seq<Op>)
    requires WellFormed(s) && d < DAYSAMPLES
    ensures |r| == |s| && forall i :: 0 <= i < |s| ==> r[i] == ClearSlot(s[i], d)
  {
    seq(|s|, i requires 0 <= i < |s| => ClearSlot(s[i], d))
  }

  /** The records with a positive score, in order. */
  ghost function Positive(s: seq<Op>): (r: seq<Op>) {
    if s == [] then []
    else Positive(s[..|s| - 1]) + (if Score(s[|s| - 1]) > 0 then [s[|s| - 1]] else [])
  }

  ghost function RolledOps(s: seq<Op>, d: nat): seq<Op>
    requires WellFormed(s) && d < DAYSAMPLES
  {
    Positive(StableSort(Cleared(s, d)))
  }

  /** In any order: cutting at the first record without points is filtering exactly when only such records follow. */
  lemma {:induction false} CutExact(s: seq<Op>, k: nat)
    requires k <= |s| && forall i :: 0 <= i < k ==> Score(s[i]) > 0
    ensures Positive(s) == s[..k] <==> forall i :: k <= i < |s| ==> Score(s[i]) == 0
    ensures |Positive(s)| >= k
  {
    hide Score;
    if s != [] {
      var n := |s| - 1;
      var p, x := s[..n], s[n];
      CutExact(p, if k == |s| then n else k);
      PositiveSnoc(s);
      if k == |s| {
        assert Positive(p) == p[..n] && p[..n] == p && s[..k] == p + [x];
      } else {
        CutOn(p, x, k);
        assert p + [x] == s;
      }
    }
  }

  lemma PositiveSnoc(s: seq<Op>)
    requires s != []
    ensures Positive(s) == Positive(s[..|s| - 1]) + (if Score(s[|s| - 1]) > 0 then [s[|s| - 1]] else [])
  {
  }

  /** The claim of CutExact for one more record behind the cut. */
  lemma CutOn(p: seq<Op>, x: Op, k: nat)
    requires k <= |p| && |Positive(p)| >= k
    requires Positive(p) == p[..k] <==> forall i :: k <= i < |p| ==> Score(p[i]) == 0
    ensures var s := p + [x];
            Positive(p) + (if Score(x) > 0 then [x] else []) == s[..k] <==> forall i :: k <= i < |s| ==> Score(s[i]) == 0
  {
    hide Score, Positive;
    var s := p + [x];
    assert s[..k] == p[..k] && s[|p|] == x;
    assert forall i :: 0 <= i < |p| ==> s[i] == p[i];
    assert Positive(p) + [] == Positive(p);
  }

  /** Cutting a list at its first zero score is the same as filtering, if the list is in order. */
  lemma CutIsFilter(s: seq<Op>, k: nat)
    requires Descending(s) && k <= |s|
    requires forall i :: 0 <= i < k ==> Score(s[i]) > 0
    requires k < |s| ==> Score(s[k]) == 0
    ensures Positive(s) == s[..k]
  {
    hide Score, Positive;
    forall i | k <= i < |s| ensures Score(s[i]) == 0 {
      assert i == k || Score(s[k]) >= Score(s[i]);
    }
    CutExact(s, k);
  }

  lemma {:induction false} PositiveMembers(s: seq<Op>)
    ensures forall o :: o in Positive(s) <==> o in s && Score(o) > 0
    ensures |Positive(s)| <= |s|
    ensures Descending(s) ==> Descending(Positive(s))
  {
    hide Score;
    if s != [] {
      PositiveMembers(s[..|s| - 1]);
      assert s == s[..|s| - 1] + [s[|s| - 1]];
      if Descending(s) {
        var q := Positive(s[..|s| - 1]);
        forall i | 0 <= i < |q| ensures Score(q[i]) >= Score(s[|s| - 1]) {
          assert q[i] in q;
        }
      }
    }
  }

  /** A list whose records are among those of a well-formed list, each at most as often, is well-formed. */
  lemma WellFormedPart(s: seq<Op>, r: seq<Op>)
    requires WellFormed(s) && multiset(r) <= multiset(s)
    ensures WellFormed(r)
  {
    forall i | 0 <= i < |r| ensures r[i] in s {
      assert r[i] in multiset(r);
    }
    forall i, j | 0 <= i < j < |r| ensures OpKey(r[i]) != OpKey(r[j]) {
      if OpKey(r[i]) == OpKey(r[j]) {
        var a :| 0 <= a < |s| && s[a] == r[i];
        var b :| 0 <= b < |s| && s[b] == r[j];
        assert a == b;
        TwiceIn(r, i, j);
        assert multiset(s)[r[i]] >= 2;
        OnceIn(s, a);
      }
    }
  }

  lemma TwiceIn(r: seq<Op>, i: nat, j: nat)
    requires i < j < |r| && r[i] == r[j]
    ensures multiset(r)[r[i]] >= 2
  {
    assert r == r[..j] + [r[j]] + r[j + 1..];
    assert r[..j][i] == r[i];
    assert r[i] in multiset(r[..j]);
  }

  lemma OnceIn(s: seq<Op>, a: nat)
    requires WellFormed(s) && a < |s|
    ensures multiset(s)[s[a]] == 1
  {
    assert s == s[..a] + [s[a]] + s[a + 1..];
    assert s[a] !in s[..a] && s[a] !in s[a + 1..];
  }

  lemma {:induction false} PositivePart(s: seq<Op>)
    ensures multiset(Positive(s)) <= multiset(s)
  {
    hide Score;
    if s != [] {
      var p, x := s[..|s| - 1], s[|s| - 1];
      PositivePart(p);
      assert s == p + [x];
      assert multiset(s) == multiset(p) + multiset([x]);
      assert Positive(s) == Positive(p) + if Score(x) > 0 then [x] else [];
    }
  }

  lemma SortedWellFormed(s: seq<Op>)
    requires WellFormed(s)
    ensures WellFormed(StableSort(s))
    ensures forall o :: o in StableSort(s) <==> o in s
  {
    StableSortArranges(s);
    WellFormedPart(s, StableSort(s));
    assert forall o :: o in StableSort(s) <==> o in multiset(StableSort(s));
    assert forall o :: o in s <==> o in multiset(s);
  }

  lemma ClearedWellFormed(s: seq<Op>, d: nat)
    requires WellFormed(s) && d < DAYSAMPLES
    ensures WellFormed(Cleared(s, d))
  {
  }

  lemma RolledWellFormed(s: seq<Op>, d: nat)
    requires WellFormed(s) && d < DAYSAMPLES
    ensures WellFormed(RolledOps(s, d)) && Descending(RolledOps(s, d)) && |RolledOps(s, d)| <= |s|
    ensures forall o :: o in RolledOps(s, d) <==> o in Cleared(s, d) && Score(o) > 0
  {
    var t := StableSort(Cleared(s, d));
    StableSortArranges(Cleared(s, d));
    SortedWellFormed(Cleared(s, d));
    PositivePart(t);
    WellFormedPart(t, Positive(t));
    PositiveMembers(t);
  }
}
