/** NUL-terminated C strings and the two case foldings the sources compare them with. */
module CStrings {

  type byte = b: int | 0 <= b < 256

  /** The bytes of a C string, without the terminating NUL. */
  type CString = s: seq<byte> | 0 !in s

  datatype Option<+T> = None | Some(value: T)

  /** The byte a C program reads at index i of s: the terminator just past the end. */
  function At(s: CString, i: nat): (b: byte)
    requires i <= |s|
    ensures b == 0 <==> i == |s|
  {
    if i < |s| then s[i] else 0
  }

  /** What fits into a buffer for max characters. */
  function Cut(s: CString, max: nat): (r: CString)
    ensures |r| <= max && (|s| <= max ==> r == s)
  {
    if |s| <= max then s else s[..max]
  }

  /** ToUpperTab: RFC 1459 section 2.2 folding, where {}|~ are the lower case of []\^. */
  function ToUpper(b: byte): byte {
    if 0x61 <= b <= 0x7e then b - 0x20 else b
  }

  function IrcFold(s: CString): (f: CString)
    ensures |f| == |s|
    ensures forall i :: 0 <= i < |s| ==> f[i] == ToUpper(s[i])
  {
    seq(|s|, i requires 0 <= i < |s| => ToUpper(s[i]))
  }

  /** The folding of strcasecmp in the C locale: letters only. */
  function AsciiUpper(b: byte): byte {
    if 0x61 <= b <= 0x7a then b - 0x20 else b
  }

  function AsciiFold(s: CString): (f: CString)
    ensures |f| == |s|
    ensures forall i :: 0 <= i < |s| ==> f[i] == AsciiUpper(s[i])
  {
    seq(|s|, i requires 0 <= i < |s| => AsciiUpper(s[i]))
  }

  /** Two bytes that differ in case only, the upper case ones going from A up to last. */
  predicate Cases(a: byte, b: byte, last: byte) {
    a == b || (a == b + 0x20 && 0x41 <= b <= last) || (b == a + 0x20 && 0x41 <= a <= last)
  }

  /** Equal under the folding of irccmp: byte for byte alike but for case, where ^ is the last upper case letter. */
  lemma IrcFoldExact(a: CString, b: CString)
    ensures IrcFold(a) == IrcFold(b) <==> |a| == |b| && forall i :: 0 <= i < |a| ==> Cases(a[i], b[i], 0x5e)
  {
    if |a| == |b| && (forall i :: 0 <= i < |a| ==> Cases(a[i], b[i], 0x5e)) { assert IrcFold(a) == IrcFold(b); }
    if IrcFold(a) == IrcFold(b) {
      forall i | 0 <= i < |a| ensures Cases(a[i], b[i], 0x5e) { assert IrcFold(a)[i] == IrcFold(b)[i]; }
    }
  }

  /** Equal under the folding of strcasecmp: the last upper case letter is Z. */
  lemma AsciiFoldExact(a: CString, b: CString)
    ensures AsciiFold(a) == AsciiFold(b) <==> |a| == |b| && forall i :: 0 <= i < |a| ==> Cases(a[i], b[i], 0x5a)
  {
    if |a| == |b| && (forall i :: 0 <= i < |a| ==> Cases(a[i], b[i], 0x5a)) { assert AsciiFold(a) == AsciiFold(b); }
    if AsciiFold(a) == AsciiFold(b) {
      forall i | 0 <= i < |a| ensures Cases(a[i], b[i], 0x5a) { assert AsciiFold(a)[i] == AsciiFold(b)[i]; }
    }
  }

  /** A folded user@host: two clients are the same person to chanfix exactly when their keys agree. */
  datatype Key = Key(user: CString, host: CString)

  function KeyOf(user: CString, host: CString): Key {
    Key(AsciiFold(user), AsciiFold(host))
  }

  /** irccmp: 0 for names equal under IRC folding, 1 for any two others. */
  method IrcCmp(a: CString, b: CString) returns (r: int)
    ensures r == 0 || r == 1
    ensures r == 0 <==> IrcFold(a) == IrcFold(b)
  {
    var i := 0;
    while ToUpper(At(a, i)) == ToUpper(At(b, i))
      invariant 0 <= i <= |a| && i <= |b|
      invariant forall j :: 0 <= j < i ==> ToUpper(a[j]) == ToUpper(b[j])
      decreases |a| - i
    {
      if At(a, i) == 0 {
        assert IrcFold(a) == IrcFold(b);
        return 0;
      }
      i := i + 1;
    }
    if |a| == |b| {
      assert IrcFold(a)[i] != IrcFold(b)[i];
    }
    r := 1;
  }
}
