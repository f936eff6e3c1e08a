/** The tokenizer, and the comma-separated hostmask and server lists of a chanfix account. */
module CommaList {
  import opened CStrings
  import opened Tokens

  const MAX_PARA := 255      // OCF_MAXPARA
  const LIST_LENGTH := 256   // OCF_USER_HOSTS_LENGTH, OCF_USER_SERVERS_LENGTH
  const COMMA: byte := 0x2c

  // ---------------------------------------------------------------- tokenize_string_separator

  /** The buffer holds the C string t at offset o. */
  ghost predicate Holds(buf: array<byte>, o: nat, t: CString)
    reads buf
  {
    o + |t| < buf.Length && buf[o..o + |t|] == t && buf[o + |t|] == 0
  }

  /** The first tokens, all of them before offset b. */
  ghost predicate Stored(buf: array<byte>, parv: seq<nat>, ts: seq<CString>, b: nat)
    reads buf
  {
    && |parv| == |ts| && b <= buf.Length
    && forall x :: 0 <= x < |ts| ==> parv[x] + |ts[x]| < b && Holds(buf, parv[x], ts[x])
  }

  /** Skips separators; the terminator is not one. */
  method Skip(buf: array<byte>, from: nat, sep: byte, ghost s: CString) returns (b: nat)
    requires sep != 0 && from <= |s| && |s| < buf.Length && buf[from..|s|] == s[from..] && buf[|s|] == 0
    ensures from <= b <= |s| && (b < |s| ==> s[b] != sep) && Split(s[b..], sep) == Split(s[from..], sep)
  {
    b := from;
    while buf[b] == sep
      invariant from <= b <= |s| && Split(s[b..], sep) == Split(s[from..], sep)
      decreases |s| - b
    {
      SameByte(buf, from, s, b);
      assert s[b..][1..] == s[b + 1..];
      b := b + 1;
    }
    SameByte(buf, from, s, b);
  }

  lemma SameByte(buf: array<byte>, from: nat, s: CString, b: nat)
    requires from <= b <= |s| < buf.Length && buf[from..|s|] == s[from..] && buf[|s|] == 0
    ensures buf[b] == At(s, b)
  {
    assert b < |s| ==> buf[from..|s|][b - from] == s[from..][b - from];
  }

  /** strchr for the separator; |s| when there is none. */
  method FindSep(buf: array<byte>, from: nat, sep: byte, ghost s: CString) returns (p: nat)
    requires sep != 0 && from < |s| && |s| < buf.Length && buf[from..|s|] == s[from..] && buf[|s|] == 0
    requires s[from] != sep
    ensures from < p <= |s| && Piece(s[from..p], sep) && (p < |s| ==> s[p] == sep)
    ensures buf[p] == At(s, p)
  {
    p := from;
    while buf[p] != sep && buf[p] != 0
      invariant from <= p <= |s| && sep !in s[from..p]
      decreases |s| - p
    {
      SameByte(buf, from, s, p);
      assert s[from..p + 1] == s[from..p] + [s[p]];
      p := p + 1;
    }
    SameByte(buf, from, s, p);
  }

  lemma SplitAt(s: CString, b: nat, p: nat, sep: byte)
    requires b < p <= |s| && Piece(s[b..p], sep) && (p < |s| ==> s[p] == sep)
    ensures Split(s[b..], sep) == [s[b..p]] + Split(s[p..], sep)
    ensures p < |s| ==> Split(s[p..], sep) == Split(s[p + 1..], sep)
  {
    SplitHead(s[b..p], s[p..], sep);
    assert s[b..] == s[b..p] + s[p..];
    assert p < |s| ==> s[p..][1..] == s[p + 1..];
  }

  /** Writing a NUL at p, behind the stored tokens, and recording the token before it. */
  lemma StoreToken(buf: array<byte>, parv: seq<nat>, ts: seq<CString>, b: nat, s: CString, p: nat)
    requires Stored(buf, parv, ts, b) && b <= p <= |s| < buf.Length && buf[b..p] == s[b..p] && buf[p] == 0
    ensures Stored(buf, parv + [b], ts + [s[b..p]], p + 1)
  {
  }

  lemma StoredLater(buf: array<byte>, parv: seq<nat>, ts: seq<CString>, b: nat, c: nat)
    requires Stored(buf, parv, ts, b) && b <= c <= buf.Length
    ensures Stored(buf, parv, ts, c)
  {
  }

  /** The string from b on is still as it was. */
  ghost predicate Rest(buf: array<byte>, s: CString, b: nat)
    reads buf
  {
    b <= |s| < buf.Length && buf[b..|s|] == s[b..] && buf[|s|] == 0
  }

  lemma RestLater(buf: array<byte>, s: CString, b: nat, c: nat)
    requires Rest(buf, s, b) && b <= c <= |s|
    ensures Rest(buf, s, c) && buf[b..c] == s[b..c]
  {
    forall i | b <= i < |s| ensures buf[i] == s[i] {
      assert buf[b..|s|][i - b] == s[b..][i - b];
    }
  }

  method WriteNul(buf: array<byte>, ghost parv: seq<nat>, ghost ts: seq<CString>, ghost b: nat, ghost s: CString, p: nat)
    requires Stored(buf, parv, ts, b) && b <= p < |s| && Rest(buf, s, b)
    modifies buf
    ensures Stored(buf, parv + [b], ts + [s[b..p]], p + 1) && Rest(buf, s, p + 1)
  {
    RestLater(buf, s, b, p);
    RestLater(buf, s, b, p + 1);
    buf[p] := 0;
    StoreToken(buf, parv, ts, b, s, p);
  }

  /** Where the loop stands: the tokens ts are cut off, and the next one, if any, starts at b. */
  ghost predicate Cutting(buf: array<byte>, s: CString, sep: byte, first: nat, b: nat, more: bool,
                          parv: seq<nat>, ts: seq<CString>)
    reads buf
  {
    && first <= b && Rest(buf, s, b) && (more <==> b < |s|) && (more ==> s[b] != sep)
    && Stored(buf, parv, ts, if more then b else |s| + 1)
    && ts + Split(s[b..], sep) == Split(s[first..], sep)
  }

  /** Behind the last token, at q, and then at b, the rest of the string is untouched, with the same tokens. */
  ghost predicate Behind(buf: array<byte>, s: CString, sep: byte, q: nat, b: nat, parv: seq<nat>, ts: seq<CString>)
    reads buf
  {
    q <= b <= |s| && Rest(buf, s, q) && Stored(buf, parv, ts, q) && Split(s[q..], sep) == Split(s[b..], sep)
  }

  /** Ends the token at a separator and skips to the next one. */
  method EndToken(buf: array<byte>, b: nat, p: nat, sep: byte, ghost s: CString, ghost parv: seq<nat>, ghost ts: seq<CString>)
    returns (more: bool, c: nat)
    requires sep != 0 && b < p < |s| && Rest(buf, s, b) && Stored(buf, parv, ts, b)
    modifies buf
    ensures p < c && Rest(buf, s, c) && (more <==> c < |s|) && (more ==> s[c] != sep)
    ensures Stored(buf, parv + [b], ts + [s[b..p]], if more then c else |s| + 1)
    ensures Split(s[c..], sep) == Split(s[p + 1..], sep) && Behind(buf, s, sep, p + 1, c, parv + [b], ts + [s[b..p]])
  {
    hide Stored, Split;
    WriteNul(buf, parv, ts, b, s, p);
    c := Skip(buf, p + 1, sep, s);
    SameByte(buf, p + 1, s, c);
    RestLater(buf, s, p + 1, c);
    more := buf[c] != 0;
    StoredLater(buf, parv + [b], ts + [s[b..p]], p + 1, if more then c else |s| + 1);
  }

  /** One turn of the loop: ends the token at b and moves on to the next one, if there is one. */
  method CutToken(buf: array<byte>, b: nat, sep: byte, ghost s: CString, ghost first: nat,
                  ghost parv: seq<nat>, ghost ts: seq<CString>)
    returns (more: bool, q: nat, c: nat, ghost t: CString)
    requires sep != 0 && Cutting(buf, s, sep, first, b, true, parv, ts)
    modifies buf
    ensures b < c <= |s| && Cutting(buf, s, sep, first, c, more, parv + [b], ts + [t])
    ensures more ==> Behind(buf, s, sep, q, c, parv + [b], ts + [t])
  {
    hide Split, Piece, Stored, Behind;
    var p := FindSep(buf, b, sep, s);
    TokenTaken(s, sep, first, b, p, ts);
    t := s[b..p];
    if buf[p] == 0 {
      RestLater(buf, s, b, p);
      StoreToken(buf, parv, ts, b, s, p);
      return false, p, p, t;
    }
    q := p + 1;
    more, c := EndToken(buf, b, p, sep, s, parv, ts);
  }

  lemma TokenTaken(s: CString, sep: byte, first: nat, b: nat, p: nat, ts: seq<CString>)
    requires first <= b < p <= |s| && Piece(s[b..p], sep) && (p < |s| ==> s[p] == sep)
    requires ts + Split(s[b..], sep) == Split(s[first..], sep)
    ensures ts + [s[b..p]] + Split(s[p..], sep) == Split(s[first..], sep)
    ensures p < |s| ==> Split(s[p..], sep) == Split(s[p + 1..], sep)
  {
    hide Split, Piece;
    SplitAt(s, b, p, sep);
    assert ts + ([s[b..p]] + Split(s[p..], sep)) == ts + [s[b..p]] + Split(s[p..], sep);
  }

  lemma SplitEnd(s: CString, b: nat, sep: byte)
    requires b <= |s|
    ensures b == |s| ==> Split(s[b..], sep) == []
    ensures b < |s| && s[b] != sep ==> |Split(s[b..], sep)| >= 1
  {
  }

  /** More tokens than places: the last pointer is to the uncut rest of the string. */
  ghost predicate Overflow(buf: array<byte>, parv: seq<nat>, s: CString, sep: byte)
    reads buf
  {
    var n := MAX_PARA - 1;
    && |parv| == n + 1 && n < |Split(s, sep)| && parv[n] <= |s| && Rest(buf, s, parv[n])
    && Stored(buf, parv[..n], Split(s, sep)[..n], parv[n])
    && Split(s[parv[n]..], sep) == Split(s, sep)[n..]
  }

  /**
   * tokenize_string_separator: cuts the string in place and returns where the tokens start. With more than
   * 254 tokens, and only then, not ok: the last pointer takes the rest, and the original writes past parv.
   */
  method Tokenize(buf: array<byte>, sep: byte, ghost s: CString) returns (ok: bool, parv: seq<nat>)
    requires sep != 0 && |s| < buf.Length && buf[..|s|] == s && buf[|s|] == 0
    modifies buf
    ensures ok <==> |Split(s, sep)| <= MAX_PARA - 1
    ensures if ok then Stored(buf, parv, Split(s, sep), |s| + 1) else Overflow(buf, parv, s, sep)
  {
    assert s[0..] == s && buf[0..|s|] == s;
    var b := Skip(buf, 0, sep, s);
    SameByte(buf, 0, s, b);
    SplitEnd(s, b, sep);
    if buf[b] == 0 { return true, []; }
    RestLater(buf, s, 0, b);
    ok, parv := CutAll(buf, b, sep, s);
  }

  /** The loop of the tokenizer, from the first token on. */
  method CutAll(buf: array<byte>, first: nat, sep: byte, ghost s: CString) returns (ok: bool, parv: seq<nat>)
    requires sep != 0 && first < |s| && s[first] != sep && Rest(buf, s, first)
    requires Split(s[first..], sep) == Split(s, sep)
    modifies buf
    ensures ok <==> |Split(s, sep)| <= MAX_PARA - 1
    ensures if ok then Stored(buf, parv, Split(s, sep), |s| + 1) else Overflow(buf, parv, s, sep)
  {
    parv := [];
    var q, b, more := first, first, true;
    ghost var ts: seq<CString> := [];
    Starts(buf, s, sep, first);
    hide *;
    while more && |parv| < MAX_PARA - 1
      invariant b <= |s| && Cutting(buf, s, sep, first, b, more, parv, ts)
      invariant |parv| <= MAX_PARA - 1 && (more ==> Behind(buf, s, sep, q, b, parv, ts))
      decreases |s| - b
    {
      var was := b;
      ghost var t;
      more, q, b, t := CutToken(buf, b, sep, s, first, parv, ts);
      parv, ts := parv + [was], ts + [t];
    }
    CuttingRoom(buf, s, sep, first, b, more, parv, ts);
    if more {
      Overflows(buf, s, sep, first, q, b, parv, ts);
      return false, parv + [q];
    }
    return true, parv;
  }

  lemma Starts(buf: array<byte>, s: CString, sep: byte, first: nat)
    requires first < |s| && s[first] != sep && Rest(buf, s, first)
    ensures Cutting(buf, s, sep, first, first, true, [], []) && Behind(buf, s, sep, first, first, [], [])
    ensures 0 <= MAX_PARA - 1
  {
    assert [] + Split(s[first..], sep) == Split(s[first..], sep);
  }

  lemma Overflows(buf: array<byte>, s: CString, sep: byte, first: nat, q: nat, b: nat, parv: seq<nat>, ts: seq<CString>)
    requires first <= |s| && Split(s[first..], sep) == Split(s, sep) && |parv| == MAX_PARA - 1
    requires Cutting(buf, s, sep, first, b, true, parv, ts) && Behind(buf, s, sep, q, b, parv, ts)
    ensures Overflow(buf, parv + [q], s, sep)
  {
    SplitEnd(s, b, sep);
    hide Split, Rest;
    assert (parv + [q])[..|parv|] == parv;
    assert Split(s, sep)[..|ts|] == ts && Split(s, sep)[|ts|..] == Split(s[b..], sep);
  }

  lemma CuttingRoom(buf: array<byte>, s: CString, sep: byte, first: nat, b: nat, more: bool,
                    parv: seq<nat>, ts: seq<CString>)
    requires first <= |s| && Cutting(buf, s, sep, first, b, more, parv, ts)
    ensures more ==> |parv| < |Split(s[first..], sep)|
    ensures !more ==> Stored(buf, parv, Split(s[first..], sep), |s| + 1) && |parv| == |Split(s[first..], sep)|
  {
    SplitEnd(s, b, sep);
    assert ts + [] == ts;
    hide Split;
  }
}
