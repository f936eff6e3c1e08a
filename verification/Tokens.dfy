/** Splitting a string at a separator, and joining the pieces again. */
module Tokens {
  import opened CStrings

  /** How many bytes come before the first separator. */
  ghost function Until(s: CString, d: byte): (n: nat)
    ensures n <= |s| && (n < |s| ==> s[n] == d) && forall i :: 0 <= i < n ==> s[i] != d
  {
    if s == [] || s[0] == d then 0 else 1 + Until(s[1..], d)
  }

  /** The non-empty pieces between separators. */
  ghost function Split(s: CString, d: byte): (r: seq<CString>)
    decreases |s|
  {
    if s == [] then []
    else if s[0] == d then Split(s[1..], d)
    else [s[..Until(s, d)]] + Split(s[Until(s, d)..], d)
  }

  ghost function Join(ts: seq<CString>, d: byte): (r: CString)
    requires d != 0
  {
    if ts == [] then [] else if |ts| == 1 then ts[0] else ts[0] + [d] + Join(ts[1..], d)
  }

  /** A piece as Split yields it. */
  ghost predicate Piece(t: CString, d: byte) {
    t != [] && d !in t
  }

  ghost predicate Pieces(ts: seq<CString>, d: byte) {
    forall i :: 0 <= i < |ts| ==> Piece(ts[i], d)
  }

  lemma {:induction false} SplitPieces(s: CString, d: byte)
    ensures Pieces(Split(s, d), d)
    decreases |s|
  {
    if s != [] {
      if s[0] == d { SplitPieces(s[1..], d); } else { SplitPieces(s[Until(s, d)..], d); }
    }
  }

  /** The head of a string that starts with a piece. */
  lemma SplitHead(t: CString, rest: CString, d: byte)
    requires Piece(t, d) && (rest == [] || rest[0] == d)
    ensures Split(t + rest, d) == [t] + Split(rest, d)
  {
    var s: CString := t + rest;
    assert s[0] == t[0];
    forall i | 0 <= i < |t| ensures s[i] == t[i] != d { assert t[i] in t; }
    assert rest != [] ==> s[|t|] == d;
    assert Until(s, d) == |t|;
    assert s[..|t|] == t && s[|t|..] == rest;
  }

  /** Splitting undoes joining. */
  lemma {:induction false} SplitJoin(ts: seq<CString>, d: byte)
    requires d != 0 && Pieces(ts, d)
    ensures Split(Join(ts, d), d) == ts
  {
    if |ts| == 1 {
      SplitHead(ts[0], [], d);
      assert ts[0] + [] == ts[0];
    } else if |ts| > 1 {
      var rest: CString := [d] + Join(ts[1..], d);
      SplitJoin(ts[1..], d);
      SplitHead(ts[0], rest, d);
      assert rest[1..] == Join(ts[1..], d);
      assert ts[0] + rest == Join(ts, d);
    }
  }

  /** What one more byte does to the pieces. */
  ghost function Extended(ts: seq<CString>, open: bool, c: byte): seq<CString>
    requires c != 0 && (open ==> ts != [])
  {
    if open then ts[..|ts| - 1] + [ts[|ts| - 1] + [c]] else ts + [[c]]
  }

  /** The last piece of s reaches its end. */
  ghost predicate Open(s: CString, d: byte) {
    s != [] && s[|s| - 1] != d
  }

  lemma SplitSingle(c: byte, d: byte)
    requires c != 0
    ensures var t: CString := [c];
            Split(t, d) == if c == d then [] else [t]
  {
    var t: CString := [c];
    assert t[1..] == [];
    if c != d { SplitHead(t, [], d); assert t + [] == t; }
  }

  /** One more byte behind a string that is a single piece. */
  lemma SnocPiece(s: CString, c: byte, d: byte)
    requires c != 0 && Piece(s, d)
    ensures Snocs(s, c, d)
  {
    var t: CString := s + [c];
    SplitHead(s, [], d);
    assert s + [] == s;
    if c == d {
      SplitHead(s, [c], d);
      SplitSingle(c, d);
    } else {
      SplitHead(t, [], d);
      assert t + [] == t;
    }
  }

  ghost predicate Snocs(s: CString, c: byte, d: byte)
    requires c != 0
  {
    && (Open(s, d) ==> Split(s, d) != [])
    && Split(s + [c], d) == if c == d then Split(s, d) else Extended(Split(s, d), Open(s, d), c)
  }

  lemma SnocSkip(s: CString, c: byte, d: byte)
    requires c != 0 && s != [] && s[0] == d && Snocs(s[1..], c, d)
    ensures Snocs(s, c, d)
  {
    var t: CString := s + [c];
    assert t[1..] == s[1..] + [c];
    assert Open(s[1..], d) == Open(s, d);
    assert Split(t, d) == Split(t[1..], d) && Split(s, d) == Split(s[1..], d);
  }

  lemma {:induction false} SplitSnoc(s: CString, c: byte, d: byte)
    requires c != 0
    ensures Snocs(s, c, d)
    decreases |s|
  {
    if s == [] {
      assert s + [c] == [c];
      SplitSingle(c, d);
    } else if s[0] == d {
      SplitSnoc(s[1..], c, d);
      SnocSkip(s, c, d);
    } else {
      var n := Until(s, d);
      assert s == s[..n] + s[n..];
      if n == |s| {
        assert s[..n] == s;
        SnocPiece(s, c, d);
      } else {
        SplitSnoc(s[n..], c, d);
        SnocBehind(s[..n], s[n..], c, d);
      }
    }
  }

  lemma SnocBehind(t: CString, rest: CString, c: byte, d: byte)
    requires c != 0 && Piece(t, d) && rest != [] && rest[0] == d
    requires Snocs(rest, c, d)
    ensures Snocs(t + rest, c, d)
  {
    assert Open(t + rest, d) == Open(rest, d);
    assert t + (rest + [c]) == t + rest + [c];
    SplitHead(t, rest, d);
    SplitHead(t, rest + [c], d);
    hide Split, Open, Extended, Piece;
    if c != d { ExtendedBehind(t, Split(rest, d), Open(rest, d), c); }
  }

  lemma ExtendedBehind(t: CString, ts: seq<CString>, open: bool, c: byte)
    requires c != 0 && (open ==> ts != [])
    ensures Extended([t] + ts, open, c) == [t] + Extended(ts, open, c)
  {
  }
}
