/** Capability names: the table lookup and the walk over a capability list. */
module CapText {
  import opened CStrings
  import opened Argz

  const MINUS: byte := 0x2d

  predicate IsSpace(b: byte) {
    9 <= b <= 13 || b == 32
  }

  /** ToLowerTab: the same folding as irccmp, downwards. */
  function ToLower(b: byte): byte {
    if 0x41 <= b <= 0x5e then b + 0x20 else b
  }

  ghost function Fold(s: CString): (f: CString)
    ensures |f| == |s| && forall i :: 0 <= i < |s| ==> f[i] == ToLower(s[i])
  {
    seq(|s|, i requires 0 <= i < |s| => ToLower(s[i]))
  }

  /** Names are equal under it exactly when they are under irccmp. */
  lemma FoldsAgree(a: CString, b: CString)
    ensures Fold(a) == Fold(b) <==> IrcFold(a) == IrcFold(b)
  {
    if Fold(a) == Fold(b) {
      forall i | 0 <= i < |a| ensures IrcFold(a)[i] == IrcFold(b)[i] { assert Fold(a)[i] == Fold(b)[i]; }
    }
    if IrcFold(a) == IrcFold(b) {
      forall i | 0 <= i < |a| ensures Fold(a)[i] == Fold(b)[i] { assert IrcFold(a)[i] == IrcFold(b)[i]; }
    }
  }

  datatype Capability = Capability(bit: nat, prohibit: bool, proto: bool, sticky: bool, name: CString)

  /** The bytes up to the first space. */
  ghost function WordLength(s: CString): (n: nat)
    ensures n <= |s| && (n < |s| ==> IsSpace(s[n])) && forall i :: 0 <= i < n ==> !IsSpace(s[i])
  {
    if s == [] || IsSpace(s[0]) then 0 else 1 + WordLength(s[1..])
  }

  ghost function Word(s: CString): CString {
    s[..WordLength(s)]
  }

  ghost predicate Name(s: CString) {
    s != [] && forall i :: 0 <= i < |s| ==> s[i] > 32
  }

  /** The table as module_init leaves it: names in order, all bits different. */
  ghost predicate TableOk(t: seq<Capability>) {
    && (forall i :: 0 <= i < |t| ==> Name(t[i].name))
    && (forall i, j :: 0 <= i < j < |t| ==> StrCmp(Fold(t[i].name), Fold(t[j].name)) < 0)
    && (forall i, j :: 0 <= i < j < |t| ==> t[i].bit != t[j].bit)
  }

  lemma {:induction false} StrCmpSkips(a: CString, b: CString, i: nat)
    requires i <= |a| && i <= |b| && forall j :: 0 <= j < i ==> a[j] == b[j]
    ensures StrCmp(a, b) == StrCmp(a[i..], b[i..])
  {
    if i > 0 {
      StrCmpSkips(a[1..], b[1..], i - 1);
      assert a[1..][i - 1..] == a[i..] && b[1..][i - 1..] == b[i..];
    } else {
      assert a[i..] == a && b[i..] == b;
    }
  }

  /** capab_search: compares the first word of key with a name. */
  method CapabSearch(key: CString, name: CString) returns (r: int)
    requires Name(name)
    ensures var c := StrCmp(Fold(Word(key)), Fold(name));
            (r == 0 <==> c == 0) && (r < 0 <==> c < 0)
  {
    ghost var k, n := Fold(Word(key)), Fold(name);
    var i := 0;
    while ToLower(At(key, i)) == ToLower(At(name, i))
      invariant 0 <= i <= |k| && i <= |n| && forall j :: 0 <= j < i ==> k[j] == n[j]
      decreases |key| - i
    {
      if At(key, i) == 0 {
        assert k == n;
        return 0;
      }
      assert i < |name| && !IsSpace(key[i]);
      i := i + 1;
    }
    StrCmpSkips(k, n, i);
    assert i < |k| ==> k[i..][0] == ToLower(key[i]);
    assert i < |n| ==> n[i..][0] == ToLower(name[i]);
    if IsSpace(At(key, i)) && At(name, i) == 0 { return 0; }
    r := ToLower(At(key, i)) - ToLower(At(name, i));
  }

  /** The entry for a word. */
  ghost function Lookup(t: seq<Capability>, word: CString): (r: Option<nat>)
    ensures r.Some? ==> r.value < |t| && Fold(t[r.value].name) == Fold(word)
    ensures r.None? ==> forall i :: 0 <= i < |t| ==> Fold(t[i].name) != Fold(word)
  {
    if t == [] then None
    else if Fold(t[|t| - 1].name) == Fold(word) then Some(|t| - 1)
    else Lookup(t[..|t| - 1], word)
  }

  lemma LookupIs(t: seq<Capability>, word: CString, i: nat)
    requires TableOk(t) && i < |t| && Fold(t[i].name) == Fold(word)
    ensures Lookup(t, word) == Some(i)
  {
    hide Fold, StrCmp;
    assert forall a, b :: 0 <= a < b < |t| ==> Fold(t[a].name) != Fold(t[b].name);
  }

  /** Entries on the wrong side of a comparison cannot match. */
  lemma SearchSide(t: seq<Capability>, word: CString, i: nat)
    requires TableOk(t) && i < |t|
    ensures var w := Fold(word);
            && (StrCmp(w, Fold(t[i].name)) < 0 ==> forall j :: i <= j < |t| ==> Fold(t[j].name) != w)
            && (StrCmp(w, Fold(t[i].name)) > 0 ==> forall j :: 0 <= j <= i ==> Fold(t[j].name) != w)
  {
    var w, f := Fold(word), Fold(t[i].name);
    hide Fold;
    StrCmpFlips(w, f);
    if StrCmp(w, f) < 0 {
      forall j | i < j < |t| ensures Fold(t[j].name) != w { StrCmpTransitive(w, f, Fold(t[j].name)); }
    } else if StrCmp(w, f) > 0 {
      forall j | 0 <= j < i ensures Fold(t[j].name) != w { StrCmpTransitive(Fold(t[j].name), f, w); }
    }
  }

  /** bsearch over the table. */
  method Search(key: CString, t: seq<Capability>) returns (r: Option<nat>)
    requires TableOk(t)
    ensures r == Lookup(t, Word(key))
  {
    var l, u := 0, |t|;
    hide Fold, StrCmp, Word;
    while l < u
      invariant 0 <= l <= u <= |t|
      invariant forall i :: 0 <= i < |t| && (i < l || u <= i) ==> Fold(t[i].name) != Fold(Word(key))
      decreases u - l
    {
      var m := (l + u) / 2;
      var c := CapabSearch(key, t[m].name);
      SearchSide(t, Word(key), m);
      if c < 0 {
        u := m;
      } else if c > 0 {
        l := m + 1;
      } else {
        LookupIs(t, Word(key), m);
        return Some(m);
      }
    }
    return None;
  }

  // ---------------------------------------------------------------- the list

  datatype Item = Item(neg: bool, word: CString)

  ghost function Trim(s: CString): (r: CString)
    ensures |r| <= |s| && (r != [] ==> !IsSpace(r[0]))
  {
    if s == [] || !IsSpace(s[0]) then s else Trim(s[1..])
  }

  lemma TrimAt(s: CString, q: nat)
    requires q <= |s|
    ensures Trim(s[q..]) == if q < |s| && IsSpace(s[q]) then Trim(s[q + 1..]) else s[q..]
  {
    assert q < |s| ==> s[q..][1..] == s[q + 1..];
  }

  ghost predicate Negative(s: CString) {
    Trim(s) != [] && Trim(s)[0] == MINUS
  }

  ghost function Body(s: CString): CString {
    if Negative(s) then Trim(s)[1..] else Trim(s)
  }

  /** What is left behind the first item. */
  ghost function Rest(s: CString): (r: CString)
    ensures |r| <= |s| && (s != [] ==> |r| < |s|)
  {
    var b := Body(s);
    Trim(b[WordLength(b)..])
  }

  /** The items of a capability list; even an empty list has one, an empty word. */
  ghost function Items(s: CString): (r: seq<Item>)
    decreases |s|
  {
    [Item(Negative(s), Word(Body(s)))] + if Rest(s) == [] then [] else Items(Rest(s))
  }

  method SkipSpaces(s: CString, p: nat) returns (q: nat)
    requires p <= |s|
    ensures p <= q <= |s| && s[q..] == Trim(s[p..])
  {
    q := p;
    hide Trim;
    while q < |s| && IsSpace(s[q])
      invariant p <= q <= |s| && Trim(s[q..]) == Trim(s[p..])
    {
      TrimAt(s, q);
      q := q + 1;
    }
    TrimAt(s, q);
  }

  method SkipWord(s: CString, p: nat) returns (q: nat)
    requires p <= |s|
    ensures q == p + WordLength(s[p..])
  {
    q := p;
    while q < |s| && !IsSpace(s[q])
      invariant p <= q <= |s| && q + WordLength(s[q..]) == p + WordLength(s[p..])
    {
      assert s[q..][1..] == s[q + 1..];
      q := q + 1;
    }
  }

  /** find_cap: looks up the first item and moves on behind it; the pointer becomes NULL at the end. */
  method FindCap(s: CString, p: nat, t: seq<Capability>) returns (cap: Option<nat>, neg: bool, next: Option<nat>)
    requires p <= |s| && TableOk(t)
    ensures neg == Negative(s[p..]) && cap == Lookup(t, Word(Body(s[p..])))
    ensures next.None? <==> Rest(s[p..]) == []
    ensures next.Some? ==> p < next.value < |s| && s[next.value..] == Rest(s[p..])
  {
    hide Trim, Body, Negative, WordLength, Word, Fold, Rest, Lookup, TableOk;
    var q := SkipSpaces(s, p);
    neg := q < |s| && s[q] == MINUS;
    if neg { q := q + 1; }
    BodyAt(s, p, if neg then q - 1 else q);
    ghost var b := q;
    cap := None;
    if q < |s| {
      cap := Search(s[q..], t);
      q := PastWord(s, q, t, cap);
      RestAt(s, p, b);
      q := SkipSpaces(s, q);
    } else {
      NoEmptyName(t);
      RestAt(s, p, b);
      EmptyWord(s, q);
    }
    next := if q < |s| then Some(q) else None;
  }

  /** Where the first item's name starts. */
  lemma BodyAt(s: CString, p: nat, q: nat)
    requires p <= q <= |s| && s[q..] == Trim(s[p..])
    ensures Negative(s[p..]) <==> q < |s| && s[q] == MINUS
    ensures Body(s[p..]) == if Negative(s[p..]) then s[q + 1..] else s[q..]
  {
    assert q < |s| ==> s[q..][1..] == s[q + 1..];
  }

  lemma RestAt(s: CString, p: nat, b: nat)
    requires p <= b <= |s| && s[b..] == Body(s[p..])
    ensures b + WordLength(s[b..]) <= |s| && Rest(s[p..]) == Trim(s[b + WordLength(s[b..])..])
  {
    hide Trim, Body, WordLength;
    var n := WordLength(s[b..]);
    assert s[b..][n..] == s[b + n..];
  }

  lemma EmptyWord(s: CString, q: nat)
    requires q == |s|
    ensures WordLength(s[q..]) == 0 && Word(s[q..]) == Word([]) && Trim(s[q..]) == []
  {
    assert s[q..] == [];
  }

  /** Past the name that was found, or up to the next space. */
  method PastWord(s: CString, p: nat, t: seq<Capability>, cap: Option<nat>) returns (q: nat)
    requires p < |s| && cap == Lookup(t, Word(s[p..]))
    ensures q == p + WordLength(s[p..]) <= |s|
  {
    if cap.None? {
      q := SkipWord(s, p);
    } else {
      assert |Fold(t[cap.value].name)| == |Fold(Word(s[p..]))|;
      q := p + |t[cap.value].name|;
    }
  }

  lemma NoEmptyName(t: seq<Capability>)
    requires TableOk(t)
    ensures Lookup(t, Word([])) == None
  {
    assert forall i :: 0 <= i < |t| ==> |Fold(t[i].name)| > 0;
  }
}
