/** argz vectors: a buffer of NUL-terminated strings that stands for a list of strings. */
module Argz {
  import opened CStrings
  import opened Tokens

  /** The entries one after the other, each with its terminator. */
  ghost function Encode(fs: seq<CString>): (b: seq<byte>) {
    if fs == [] then [] else fs[0] + [0] + Encode(fs[1..])
  }

  /** Where entry k starts. */
  ghost function Offset(fs: seq<CString>, k: nat): nat
    requires k <= |fs|
  {
    |Encode(fs[..k])|
  }

  lemma {:induction false} EncodeConcat(fs: seq<CString>, gs: seq<CString>)
    ensures Encode(fs + gs) == Encode(fs) + Encode(gs)
  {
    if fs == [] {
      assert fs + gs == gs;
    } else {
      EncodeConcat(fs[1..], gs);
      assert (fs + gs)[1..] == fs[1..] + gs;
    }
  }

  lemma EncodeCut(fs: seq<CString>, k: nat)
    requires k <= |fs|
    ensures Encode(fs) == Encode(fs[..k]) + Encode(fs[k..])
  {
    hide Encode;
    EncodeConcat(fs[..k], fs[k..]);
    assert fs == fs[..k] + fs[k..];
  }

  lemma EncodeOne(f: CString)
    ensures Encode([f]) == f + [0]
  {
    assert [f][1..] == [];
  }

  lemma EncodeEmpty(fs: seq<CString>)
    ensures Encode(fs) == [] <==> fs == []
  {
  }

  lemma EncodeParts(fs: seq<CString>, k: nat)
    requires k < |fs|
    ensures Encode(fs) == Encode(fs[..k]) + (fs[k] + [0]) + Encode(fs[k + 1..])
    ensures Offset(fs, k + 1) == Offset(fs, k) + |fs[k]| + 1 && Offset(fs, k + 1) <= |Encode(fs)|
    ensures Offset(fs, k + 1) == |Encode(fs)| <==> k + 1 == |fs|
  {
    hide Encode;
    EncodeEmpty(fs[k + 1..]);
    EncodeCut(fs, k + 1);
    EncodeOne(fs[k]);
    EncodeConcat(fs[..k], [fs[k]]);
    assert fs[..k + 1] == fs[..k] + [fs[k]];
  }

  // ---------------------------------------------------------------- argz_create_sep

  /** Nothing, or the last byte, when the string ends in a separator or is empty. */
  ghost function Trailing(s: CString, d: byte): seq<byte> {
    if Open(s, d) then [] else [0]
  }

  /** What argz_create_sep makes of a string. */
  ghost function Created(s: CString, d: byte): seq<byte> {
    Encode(Split(s, d)) + Trailing(s, d)
  }

  /** The bytes written for s before the terminator. */
  ghost function Written(s: CString, d: byte): seq<byte> {
    if s == [] then []
    else
      var w, c := Written(s[..|s| - 1], d), s[|s| - 1];
      if c != d then w + [c]
      else if w != [] && w[|w| - 1] != 0 then w + [0]
      else w
  }

  lemma {:induction false} EncodeExtended(ts: seq<CString>, c: byte)
    requires ts != [] && c != 0
    ensures var e := Encode(ts);
            e != [] && e[|e| - 1] == 0 && Encode(Extended(ts, true, c)) == e[..|e| - 1] + [c] + [0]
  {
    var k: nat := |ts| - 1;
    EncodeParts(ts, k);
    assert ts[k + 1..] == [];
    var us := Extended(ts, true, c);
    EncodeParts(us, k);
    assert us[..k] == ts[..k] && us[k + 1..] == [];
  }

  lemma {:induction false} WrittenIsCreated(s: CString, d: byte)
    ensures Written(s, d) + [0] == Created(s, d)
    ensures Open(s, d) ==> Written(s, d) != [] && Written(s, d)[|Written(s, d)| - 1] != 0
    ensures !Open(s, d) && Written(s, d) != [] ==> Written(s, d)[|Written(s, d)| - 1] == 0
    decreases |s|
  {
    if s != [] {
      var p, c := s[..|s| - 1], s[|s| - 1];
      assert s == p + [c];
      WrittenIsCreated(p, d);
      SplitSnoc(p, c, d);
      var ts := Split(p, d);
      LastOfEncode(ts);
      if c != d { WrittenOn(ts, Open(p, d), Written(p, d), c); }
    }
  }

  /** The case of WrittenIsCreated where the new byte belongs to a field. */
  lemma WrittenOn(ts: seq<CString>, open: bool, w: seq<byte>, c: byte)
    requires c != 0 && (open ==> ts != []) && w + [0] == Encode(ts) + if open then [] else [0]
    ensures w + [c] + [0] == Encode(Extended(ts, open, c))
  {
    if open {
      EncodeExtended(ts, c);
      assert w == (w + [0])[..|w|];
    } else {
      EncodeConcat(ts, [[c]]);
      EncodeOne([c]);
      assert w == (w + [0])[..|w|] && Encode(ts) == (Encode(ts) + [0])[..|w|];
    }
  }

  lemma LastOfEncode(fs: seq<CString>)
    ensures fs != [] ==> Encode(fs) != [] && Encode(fs)[|Encode(fs)| - 1] == 0
  {
    if fs != [] { EncodeParts(fs, |fs| - 1); assert fs[|fs|..] == []; }
  }

  /** argz_create_sep: copies str, turning each run of delimiters into one NUL. */
  method CreateSep(str: CString, delim: byte) returns (argz: array<byte>, len: nat)
    ensures len <= argz.Length && argz[..len] == Created(str, delim)
  {
    len := 1 + |str|;
    argz := new byte[len];
    var p, q := 0, 0;
    while p < |str|
      invariant 0 <= q <= p <= |str| && len == 1 + |str| - (p - q)
      invariant argz[..q] == Written(str[..p], delim)
    {
      assert str[..p + 1][..p] == str[..p];
      if str[p] == delim {
        if q > 0 && argz[q - 1] != 0 {
          argz[q] := 0;
          q := q + 1;
        } else {
          len := len - 1;
        }
      } else {
        argz[q] := str[p];
        q := q + 1;
      }
      p := p + 1;
    }
    argz[q] := 0;
    assert str[..p] == str;
    WrittenIsCreated(str, delim);
  }

  /** The vector holds exactly the non-empty fields if and only if the string does not end in a delimiter. */
  lemma CreatedExactly(s: CString, d: byte)
    ensures Created(s, d) == Encode(Split(s, d)) <==> Open(s, d)
    ensures !Open(s, d) ==> Created(s, d) == Encode(Split(s, d) + [[]])
  {
    var blank: seq<CString> := [[]];
    EncodeConcat(Split(s, d), blank);
    EncodeOne([]);
  }

  // ---------------------------------------------------------------- argz_next

  /** strchr(entry, 0) on a buffer that ends in NUL. */
  function NulFrom(b: seq<byte>, o: nat): (r: nat)
    requires o < |b| && b[|b| - 1] == 0
    ensures o <= r < |b| && b[r] == 0 && forall i :: o <= i < r ==> b[i] != 0
    decreases |b| - o
  {
    if b[o] == 0 then o else NulFrom(b, o + 1)
  }

  /** argz_next; offsets stand for pointers and None for NULL. */
  function Next(b: seq<byte>, entry: Option<nat>): (r: Option<nat>)
    requires b != [] ==> b[|b| - 1] == 0
    requires entry.Some? ==> entry.value < |b|
  {
    match entry
    case None => if b != [] then Some(0) else None
    case Some(o) => if NulFrom(b, o) + 1 >= |b| then None else Some(NulFrom(b, o) + 1)
  }

  /** The string at an offset. */
  function StringAt(b: seq<byte>, o: nat): CString
    requires o < |b| && b[|b| - 1] == 0
  {
    b[o..NulFrom(b, o)]
  }

  /** Where the entry that byte o belongs to ends. */
  lemma NulAfter(fs: seq<CString>, k: nat, o: nat)
    requires k < |fs| && Offset(fs, k) <= o < Offset(fs, k + 1)
    ensures var b := Encode(fs);
            o < |b| && b[|b| - 1] == 0 && NulFrom(b, o) + 1 == Offset(fs, k + 1)
  {
    var b, x, f := Encode(fs), Encode(fs[..k]), fs[k];
    EncodeParts(fs, k);
    LastOfEncode(fs);
    forall i | 0 <= i < |f| ensures b[|x| + i] == f[i] && f[i] != 0 {}
    assert b[|x| + |f|] == 0;
  }

  lemma FirstOffset(fs: seq<CString>)
    ensures Offset(fs, 0) == 0
  {
    assert fs[..0] == [];
  }

  lemma EntryBytes(fs: seq<CString>, k: nat)
    requires k < |fs|
    ensures Offset(fs, k) + |fs[k]| < |Encode(fs)| && Encode(fs)[Offset(fs, k)..Offset(fs, k) + |fs[k]|] == fs[k]
  {
    hide Encode;
    EncodeParts(fs, k);
  }

  /** argz_next walks through exactly the entries, in order. */
  lemma NextEnumerates(fs: seq<CString>, k: nat)
    requires k < |fs|
    ensures var b := Encode(fs);
            && b != [] && b[|b| - 1] == 0 && Offset(fs, k) < |b|
            && StringAt(b, Offset(fs, k)) == fs[k]
            && Next(b, None) == Some(Offset(fs, 0))
            && Next(b, Some(Offset(fs, k))) == if k + 1 < |fs| then Some(Offset(fs, k + 1)) else None
  {
    hide Encode, NulFrom;
    FirstOffset(fs);
    EncodeParts(fs, k);
    NulAfter(fs, k, Offset(fs, k));
    EntryBytes(fs, k);
  }

  // ---------------------------------------------------------------- argz_stringify

  /** What the backward loop makes of the buffer: the first and the last byte are never touched. */
  ghost function Replaced(b: seq<byte>, sep: byte): (r: seq<byte>) {
    seq(|b|, i requires 0 <= i < |b| => if 0 < i < |b| - 1 && b[i] == 0 then sep else b[i])
  }

  /** Every terminator but the last one replaced. */
  ghost function Rejoined(b: seq<byte>, sep: byte): (r: seq<byte>) {
    seq(|b|, i requires 0 <= i < |b| => if i < |b| - 1 && b[i] == 0 then sep else b[i])
  }

  lemma RejoinedConcat(x: seq<byte>, y: seq<byte>, sep: byte)
    requires x != [] && x[|x| - 1] == 0 && y != []
    ensures Rejoined(x + y, sep) == Rejoined(x, sep)[..|x| - 1] + [sep] + Rejoined(y, sep)
  {
    var l, r := Rejoined(x + y, sep), Rejoined(x, sep)[..|x| - 1] + [sep] + Rejoined(y, sep);
    forall i | 0 <= i < |l| ensures l[i] == r[i] {
      if i >= |x| { assert r[i] == Rejoined(y, sep)[i - |x|]; }
    }
  }

  lemma RejoinedOne(f: CString, sep: byte)
    ensures Rejoined(f + [0], sep) == f + [0]
  {
    forall i | 0 <= i < |f| ensures (f + [0])[i] != 0 {}
  }

  lemma {:induction false} RejoinedIsJoined(fs: seq<CString>, sep: byte)
    requires sep != 0 && fs != []
    ensures Rejoined(Encode(fs), sep) == Join(fs, sep) + [0]
  {
    var f, rest := fs[0], fs[1..];
    RejoinedOne(f, sep);
    if rest != [] {
      RejoinedIsJoined(rest, sep);
      LastOfEncode(rest);
      RejoinedConcat(f + [0], Encode(rest), sep);
      assert (f + [0])[..|f|] == f;
    }
  }

  /** The loop of argz_stringify never leaves the vector. */
  ghost predicate InBounds(b: seq<byte>, sep: byte) {
    sep == 0 || |b| >= 2
  }

  /** Stringifying gives the entries joined by the separator if and only if there is a first entry and it is not empty. */
  lemma StringifyJoins(fs: seq<CString>, sep: byte)
    requires sep != 0
    ensures InBounds(Encode(fs), sep) && Replaced(Encode(fs), sep) == Join(fs, sep) + [0] <==> fs != [] && fs[0] != []
  {
    if fs != [] {
      var b := Encode(fs);
      var r, j := Replaced(b, sep), Rejoined(b, sep);
      RejoinedIsJoined(fs, sep);
      LastOfEncode(fs);
      FirstByte(fs);
      assert forall i :: 0 < i < |b| ==> r[i] == j[i];
      assert r == j <==> r[0] == j[0];
      hide Encode;
    }
  }

  /** The vector that creating makes of an empty string is too short to be stringified. */
  lemma EmptyStringTooShort(delim: byte, sep: byte)
    requires sep != 0
    ensures Created([], delim) == Encode([[]]) == [0] && !InBounds(Created([], delim), sep)
  {
    EncodeOne([]);
  }

  lemma FirstByte(fs: seq<CString>)
    requires fs != []
    ensures Encode(fs) != [] && (Encode(fs)[0] == 0 <==> fs[0] == [])
    ensures fs[0] != [] ==> |Encode(fs)| >= 2
  {
    assert fs[0] != [] ==> Encode(fs)[0] == fs[0][0];
  }

  /** Creating a vector from the string that stringifying gives returns the same vector. */
  lemma StringifyThenCreate(fs: seq<CString>, sep: byte)
    requires sep != 0 && fs != [] && Pieces(fs, sep)
    ensures var b := Replaced(Encode(fs), sep);
            var s: CString := Join(fs, sep);
            InBounds(Encode(fs), sep) && b == s + [0] && Created(s, sep) == Encode(fs)
  {
    StringifyJoins(fs, sep);
    assert Piece(fs[0], sep);
    SplitJoin(fs, sep);
    JoinOpen(fs, sep);
  }

  lemma {:induction false} JoinOpen(fs: seq<CString>, sep: byte)
    requires sep != 0 && fs != [] && Pieces(fs, sep)
    ensures Open(Join(fs, sep), sep)
  {
    if |fs| == 1 {
      assert fs[0][|fs[0]| - 1] in fs[0];
    } else {
      JoinOpen(fs[1..], sep);
    }
  }

  /** Stringifying a vector made from a string that does not end in the delimiter gives the normalised string. */
  lemma CreateThenStringify(s: CString, sep: byte)
    requires sep != 0 && Open(s, sep)
    ensures InBounds(Created(s, sep), sep) && Replaced(Created(s, sep), sep) == Join(Split(s, sep), sep) + [0]
  {
    var p, c := s[..|s| - 1], s[|s| - 1];
    assert s == p + [c];
    SplitSnoc(p, c, sep);
    SplitPieces(s, sep);
    assert Piece(Split(s, sep)[0], sep);
    StringifyJoins(Split(s, sep), sep);
  }

  // ---------------------------------------------------------------- strcmp

  /** The sign of strcmp, which compares bytes as unsigned. */
  function StrCmp(a: CString, b: CString): (r: int)
    ensures r == 0 <==> a == b
  {
    if a == [] then (if b == [] then 0 else -1)
    else if b == [] then 1
    else if a[0] != b[0] then (if a[0] < b[0] then -1 else 1)
    else
      assert a == [a[0]] + a[1..] && b == [b[0]] + b[1..];
      StrCmp(a[1..], b[1..])
  }

  lemma {:induction false} StrCmpFlips(a: CString, b: CString)
    ensures StrCmp(a, b) == -StrCmp(b, a)
  {
    if a != [] && b != [] { StrCmpFlips(a[1..], b[1..]); }
  }

  lemma {:induction false} StrCmpTransitive(a: CString, b: CString, c: CString)
    requires StrCmp(a, b) < 0 && StrCmp(b, c) < 0
    ensures StrCmp(a, c) < 0
  {
    if a != [] && b != [] && c != [] && a[0] == b[0] == c[0] { StrCmpTransitive(a[1..], b[1..], c[1..]); }
  }

  ghost predicate Ascending(fs: seq<CString>) {
    forall i, j :: 0 <= i < j < |fs| ==> StrCmp(fs[i], fs[j]) < 0
  }

  ghost function Inserted(fs: seq<CString>, k: nat, e: CString): seq<CString>
    requires k <= |fs|
  {
    fs[..k] + [e] + fs[k..]
  }

  /** Putting e in front of the first greater entry keeps the order strict. */
  lemma InsertedAscending(fs: seq<CString>, k: nat, e: CString)
    requires Ascending(fs) && k <= |fs| && (forall i :: 0 <= i < k ==> StrCmp(e, fs[i]) > 0)
    requires k < |fs| ==> StrCmp(e, fs[k]) < 0
    ensures Ascending(Inserted(fs, k, e)) && e !in fs
  {
    hide StrCmp;
    forall i | 0 <= i < k ensures StrCmp(fs[i], e) < 0 { StrCmpFlips(fs[i], e); }
    forall i | k <= i < |fs| ensures StrCmp(e, fs[i]) < 0 {
      if i > k { StrCmpTransitive(e, fs[k], fs[i]); }
    }
  }

  const SIZE_MAX: nat := 0xffff_ffff_ffff_ffff

  /** The decrement of a size_t. */
  function Down(n: nat): nat {
    if n == 0 then SIZE_MAX else n - 1
  }

  /** The loop has dealt with everything behind index n. */
  ghost predicate HalfReplaced(was: seq<byte>, b: seq<byte>, sep: byte, n: nat) {
    |b| == |was| && forall j :: 0 <= j < |b| ==> b[j] == if n < j < |b| - 1 && was[j] == 0 then sep else was[j]
  }

  /** A vector as its two variables: an empty one is the NULL pointer. */
  class Vector {
    var argz: seq<byte>

    constructor (argz: seq<byte>)
      ensures this.argz == argz
    {
      this.argz := argz;
    }

    /** argz_append: the entries of buf come behind those of the vector. */
    method Append(buf: seq<byte>)
      modifies this
      ensures argz == old(argz) + buf
      ensures forall fs, gs :: old(argz) == Encode(fs) && buf == Encode(gs) ==> argz == Encode(fs + gs)
    {
      forall fs, gs | argz == Encode(fs) && buf == Encode(gs) ensures argz + buf == Encode(fs + gs) {
        EncodeConcat(fs, gs);
      }
      if |buf| == 0 { return; }
      argz := argz + buf;
    }

    /** argz_insert; before may point anywhere into entry k, and is moved back to its start. */
    method Insert(before: Option<nat>, entry: CString, ghost fs: seq<CString>, ghost k: nat)
      requires entry != [] && argz == Encode(fs) && k <= |fs|
      requires if before == None then k == |fs|
               else k < |fs| && Offset(fs, k) <= before.value < Offset(fs, k + 1)
      modifies this
      ensures argz == Encode(Inserted(fs, k, entry))
    {
      EncodeInserted(fs, k, entry);
      if before == None {
        assert fs[..k] == fs && fs[k..] == [] && Encode([]) == [];
        Append(entry + [0]);
        return;
      }
      var b := before.value;
      EncodeParts(fs, k);
      AtOffset(fs, k);
      hide Encode;
      while b > 0 && argz[b - 1] != 0
        invariant Offset(fs, k) <= b <= before.value && argz == Encode(fs)
      {
        b := b - 1;
      }
      StartOfEntry(fs, k, b);
      argz := argz[..b] + (entry + [0]) + argz[b..];
    }

    /**
     * argz_stringify. The counter is unsigned and wraps around; ok tells whether the loop stayed inside the
     * vector, and if it did not, nothing is promised by the original.
     */
    method Stringify(sep: byte) returns (ok: bool)
      requires |argz| < SIZE_MAX
      modifies this
      ensures ok <==> InBounds(old(argz), sep)
      ensures argz == if ok && sep != 0 then Replaced(old(argz), sep) else old(argz)
    {
      if sep == 0 { return true; }
      var n := Down(Down(|argz|));
      while n > 0
        invariant 0 <= n && |argz| == |old(argz)|
        invariant n < |argz| ==> |argz| >= 2 && n <= |argz| - 2 && HalfReplaced(old(argz), argz, sep, n)
        invariant n >= |argz| ==> n > 0 && |argz| < 2 && argz == old(argz)
      {
        if n >= |argz| { return false; }
        if argz[n] == 0 { argz := argz[n := sep]; }
        n := n - 1;
      }
      return true;
    }

    /** lt_argz_insertinorder */
    method InsertInOrder(entry: CString, ghost fs: seq<CString>) returns (ghost k: nat)
      requires entry != [] && argz == Encode(fs) && Ascending(fs)
      modifies this
      ensures k <= |fs| && if entry in fs then argz == old(argz)
              else argz == Encode(Inserted(fs, k, entry)) && Ascending(Inserted(fs, k, entry))
    {
      hide Encode, StrCmp, Next, StringAt, Offset, Ascending, Inserted;
      var before, found;
      before, found, k := FindPlace(argz, entry, fs);
      if found { return; }
      InsertedAscending(fs, k, entry);
      PlaceInVector(fs, k);
      Insert(before, entry, fs, k);
    }
  }

  lemma PlaceInVector(fs: seq<CString>, k: nat)
    requires k < |fs| || k == |fs|
    ensures k < |fs| ==> Offset(fs, k) < Offset(fs, k + 1)
  {
    if k < |fs| { EncodeParts(fs, k); }
  }

  /** The loop of lt_argz_insertinorder: the first greater entry, unless the entry itself comes first. */
  method FindPlace(argz: seq<byte>, entry: CString, ghost fs: seq<CString>)
    returns (before: Option<nat>, found: bool, ghost k: nat)
    requires argz == Encode(fs)
    ensures k <= |fs| && (found ==> entry in fs)
    ensures !found ==> before == (if k < |fs| then Some(Offset(fs, k)) else None)
                       && (forall i :: 0 <= i < k ==> StrCmp(entry, fs[i]) > 0) && (k < |fs| ==> StrCmp(entry, fs[k]) < 0)
  {
    hide Encode, StrCmp, Offset;
    k, before, found := 0, None, false;
    EncodeEmpty(fs);
    if argz != [] {
      NextEnumerates(fs, 0);
      before := Next(argz, None);
      hide Next, StringAt;
      while before.Some?
        invariant k <= |fs| && !found
        invariant before == if k < |fs| then Some(Offset(fs, k)) else None
        invariant forall i :: 0 <= i < k ==> StrCmp(entry, fs[i]) > 0
        decreases |fs| - k
      {
        NextEnumerates(fs, k);
        var cmp := StrCmp(entry, StringAt(argz, before.value));
        if cmp < 0 { break; }
        if cmp == 0 {
          found := true;
          return;
        }
        before := Next(argz, before);
        k := k + 1;
      }
    }
  }

  lemma EncodeInserted(fs: seq<CString>, k: nat, e: CString)
    requires k <= |fs|
    ensures Encode(Inserted(fs, k, e)) == Encode(fs[..k]) + (e + [0]) + Encode(fs[k..])
    ensures Encode(fs) == Encode(fs[..k]) + Encode(fs[k..])
  {
    hide Encode;
    EncodeConcat(fs[..k] + [e], fs[k..]);
    EncodeConcat(fs[..k], [e]);
    EncodeCut(fs, k);
    EncodeOne(e);
  }

  /** The byte before an entry is a terminator, unless the entry is the first one. */
  lemma AtOffset(fs: seq<CString>, k: nat)
    requires k < |fs|
    ensures Offset(fs, k) <= |Encode(fs)| && (Offset(fs, k) > 0 ==> Encode(fs)[Offset(fs, k) - 1] == 0)
  {
    EncodeParts(fs, k);
    LastOfEncode(fs[..k]);
  }

  lemma StartOfEntry(fs: seq<CString>, k: nat, b: nat)
    requires k < |fs| && Offset(fs, k) <= b < Offset(fs, k + 1)
    requires b <= |Encode(fs)| && (b == 0 || Encode(fs)[b - 1] == 0)
    ensures b == Offset(fs, k)
  {
    EncodeParts(fs, k);
    var x, f := Encode(fs[..k]), fs[k];
    assert forall i :: 0 <= i < |f| ==> Encode(fs)[|x| + i] == f[i] && f[i] != 0;
  }
}
