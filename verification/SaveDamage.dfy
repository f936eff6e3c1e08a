/** The saved file byte by byte, and which damage to it is noticed when it is loaded. */
module SaveDamage {
  import opened CStrings
  import opened OpRecords
  import opened Notes
  import opened Channels
  import opened ChannelIndex
  import opened SaveFile

  // ---------------------------------------------------------------- the layout

  /** Where the name of channel j stands in the file. */
  ghost function NamePlace(s: Saved, j: nat): nat
    requires j <= |s.chs|
  {
    2 + |SavedChans(s.chs[..j])| + 2
  }

  lemma {:induction false} SavedChansConcat(a: seq<Chan>, b: seq<Chan>)
    ensures SavedChans(a + b) == SavedChans(a) + SavedChans(b)
  {
    hide SavedChan;
    if a == [] {
      assert a + b == b;
    } else {
      assert (a + b)[1..] == a[1..] + b;
      SavedChansConcat(a[1..], b);
    }
  }

  /** The file around channel j. */
  ghost function Before(s: Saved, j: nat): seq<Record>
    requires j < |s.chs|
  {
    [Version(DB_VERSION_NUMBER), Header(|s.chs|, s.maxSize, s.subsort)] + SavedChans(s.chs[..j])
  }

  lemma FileAround(s: Saved, j: nat)
    requires j < |s.chs|
    ensures SavedFile(s) == Before(s, j) + SavedChan(s.chs[j]) + SavedChans(s.chs[j + 1..])
    ensures |Before(s, j)| + 2 == NamePlace(s, j)
  {
    hide SavedChan;
    assert s.chs == s.chs[..j] + s.chs[j..] && s.chs[j..][0] == s.chs[j] && s.chs[j..][1..] == s.chs[j + 1..];
    SavedChansConcat(s.chs[..j], s.chs[j..]);
  }

  /** One channel: name, fields, op records and notes, in this order. */
  ghost predicate LaidOut(f: seq<Record>, k: nat, c: Chan) {
    var n, l := |c.ops|, NoteList(c.notes);
    && |f| >= k + 2 + n + |l| && k >= 2
    && f[k - 1] == Length(|c.name|) && f[k] == Name(c.name)
    && f[k + 1] == Struct(Fields(c.timestamp, c.flag, c.clientCount, c.autoFix, c.manualFix, n, c.opMax, c.noteCount))
    && (forall i :: 0 <= i < n ==> f[k + 2 + i] == OpRecord(c.ops[i]))
    && (forall i :: 0 <= i < |l| ==> f[k + 2 + n + i] == NoteRecord(l[i]))
  }

  lemma Parts(h: seq<Record>, a: seq<Record>, b: seq<Record>)
    ensures var f := h + a + b;
            && (forall i :: 0 <= i < |h| ==> f[i] == h[i])
            && (forall i :: 0 <= i < |a| ==> f[|h| + i] == a[i])
            && (forall i :: 0 <= i < |b| ==> f[|h| + |a| + i] == b[i])
  {
  }

  lemma ChannelLaidOut(c: Chan)
    ensures LaidOut(SavedChan(c), 2, c)
  {
    hide TestCrc, NoteList;
    Parts([Crc(TestCrc(c.name, FieldsOf(c))), Length(|c.name|), Name(c.name), Struct(FieldsOf(c))],
          SavedOps(c.ops), SavedNotes(NoteList(c.notes)));
  }

  lemma LaidOutWithin(a: seq<Record>, g: seq<Record>, b: seq<Record>, c: Chan)
    requires LaidOut(g, 2, c)
    ensures LaidOut(a + g + b, |a| + 2, c)
  {
    hide NoteList;
    var f := a + g + b;
    assert forall i :: 0 <= i < |g| ==> f[|a| + i] == g[i];
    var n, l := |c.ops|, NoteList(c.notes);
    forall i | 0 <= i < n ensures f[|a| + 4 + i] == OpRecord(c.ops[i]) { assert g[4 + i] == OpRecord(c.ops[i]); }
    forall i | 0 <= i < |l| ensures f[|a| + 4 + n + i] == NoteRecord(l[i]) { assert g[4 + n + i] == NoteRecord(l[i]); }
  }

  /** Version and index first, then every channel. */
  lemma SavedLayout(s: Saved, j: nat)
    requires j < |s.chs|
    ensures LaidOut(SavedFile(s), NamePlace(s, j), s.chs[j])
    ensures SavedFile(s)[0] == Version(0x0200001) && SavedFile(s)[1] == Header(|s.chs|, s.maxSize, s.subsort)
  {
    hide SavedChan, SavedChans, LaidOut;
    FileAround(s, j);
    ChannelLaidOut(s.chs[j]);
    LaidOutWithin(Before(s, j), SavedChan(s.chs[j]), SavedChans(s.chs[j + 1..]), s.chs[j]);
  }

  // ---------------------------------------------------------------- what the checksum sees

  function Pow256(k: nat): (p: nat)
    ensures p >= 1
  {
    if k == 0 then 1 else 256 * Pow256(k - 1)
  }

  lemma {:induction false} WordUpdate(w: CString, k: nat, b: byte)
    requires k < |w| && b != 0
    ensures WordOf(w[k := b]) == WordOf(w) + (b - w[k]) * Pow256(k)
  {
    if k == 0 {
      assert w[0 := b][1..] == w[1..];
    } else {
      WordUpdate(w[1..], k - 1, b);
      assert w[k := b][1..] == w[1..][k - 1 := b];
      assert (b - w[k]) * Pow256(k) == 256 * ((b - w[k]) * Pow256(k - 1));
    }
  }

  /** What a changed byte adds to the sum. */
  ghost function Shift(name: CString, i: nat, b: byte): int
    requires i < |name|
  {
    if i < |name| / 8 * 8 then (b - name[i]) * Pow256(i % 8) else 0
  }

  lemma {:induction false} SumUpdated(name: CString, i: nat, b: byte)
    requires i < |name| && b != 0
    ensures NameSum(name[i := b]) == NameSum(name) + Shift(name, i, b)
  {
    hide Pow256, WordOf;
    var n := name[i := b];
    if |name| >= 8 {
      if i < 8 {
        assert n[8..] == name[8..] && n[..8] == name[..8][i := b];
        WordUpdate(name[..8], i, b);
      } else {
        assert n[..8] == name[..8] && n[8..] == name[8..][i - 8 := b];
        SumUpdated(name[8..], i - 8, b);
        ShiftLater(name, i, b);
      }
    }
  }

  lemma ShiftLater(name: CString, i: nat, b: byte)
    requires 8 <= i < |name|
    ensures Shift(name, i, b) == Shift(name[8..], i - 8, b)
  {
    hide Pow256;
    assert (i - 8) % 8 == i % 8 && (|name| - 8) / 8 * 8 == |name| / 8 * 8 - 8;
  }

  lemma ModShift(a: int, x: int, m: int)
    requires m > 0
    ensures (a + x) % m == a % m <==> x % m == 0
  {
    var q, r := a / m, a % m;
    var p, t := (a + x) / m, (a + x) % m;
    assert a == m * q + r && a + x == m * p + t;
    if t == r {
      assert x == m * (p - q);
      MultipleOf(p - q, m);
    }
    if x % m == 0 {
      var k := x / m;
      assert x == m * k;
      assert a + x == m * (q + k) + r;
      SameRest(p, t, q + k, r, m);
    }
  }

  lemma MultipleOf(k: int, m: int)
    requires m > 0
    ensures (m * k) % m == 0
  {
    var p, t := (m * k) / m, (m * k) % m;
    assert m * k == m * p + t;
    SameRest(p, t, k, 0, m);
  }

  lemma SameRest(p: int, t: int, q: int, r: int, m: int)
    requires m > 0 && 0 <= t < m && 0 <= r < m && m * p + t == m * q + r
    ensures p == q && t == r
  {
    if p < q { FurtherOff(p, q, m); }
    if q < p { FurtherOff(q, p, m); }
  }

  lemma FurtherOff(p: int, q: int, m: int)
    requires m > 0 && p < q
    ensures m * q >= m * p + m
  {
    assert m * (q - p - 1) >= 0;
    assert m * q == m * p + m + m * (q - p - 1);
  }

  lemma Powers()
    ensures Pow256(0) == 1 && Pow256(1) == 0x100 && Pow256(2) == 0x1_0000 && Pow256(3) == 0x100_0000
    ensures Pow256(4) == 0x1_0000_0000 && Pow256(5) == 0x1_0000_0000 * 0x100
    ensures Pow256(6) == 0x1_0000_0000 * 0x1_0000 && Pow256(7) == 0x1_0000_0000 * 0x100_0000
  {
    assert Pow256(1) == 256 * Pow256(0) && Pow256(2) == 256 * Pow256(1) && Pow256(3) == 256 * Pow256(2);
    assert Pow256(4) == 256 * Pow256(3) && Pow256(5) == 256 * Pow256(4) && Pow256(6) == 256 * Pow256(5);
    assert Pow256(7) == 256 * Pow256(6);
  }

  /** In 32 bits a changed byte shows if it is one of the lower four of its word. */
  lemma ShiftedByte(x: int, k: nat)
    requires k < 8 && -256 < x < 256 && x != 0
    ensures (x * Pow256(k)) % 0x1_0000_0000 == 0 <==> k >= 4
  {
    Powers();
    hide Pow256;
    if k >= 4 {
      var p := if k == 4 then 1 else if k == 5 then 0x100 else if k == 6 then 0x1_0000 else 0x100_0000;
      assert x * Pow256(k) == 0x1_0000_0000 * (x * p);
      MultipleOf(x * p, 0x1_0000_0000);
    } else {
      SmallShift(x, Pow256(k));
    }
  }

  lemma SmallShift(x: int, p: int)
    requires -256 < x < 256 && x != 0 && (p == 1 || p == 0x100 || p == 0x1_0000 || p == 0x100_0000)
    ensures (x * p) % 0x1_0000_0000 != 0
  {
    NoMultiple(x * p, 0x1_0000_0000);
  }

  lemma NoMultiple(y: int, m: int)
    requires m > 0 && -m < y < m && y != 0
    ensures y % m != 0
  {
  }

  /** The checksum notices a changed byte exactly in the lower half of a whole word. */
  lemma CrcOfName(name: CString, s: Fields, i: nat, b: byte)
    requires i < |name| && b != 0 && b != name[i]
    ensures TestCrc(name[i := b], s) == TestCrc(name, s) <==> !(i < |name| / 8 * 8 && i % 8 < 4)
  {
    SumUpdated(name, i, b);
    hide Pow256, NameSum;
    var rest := NameSum(name) + s.timestamp + s.noteCount + s.opCount + s.opMax + s.flag;
    if i < |name| / 8 * 8 {
      var x := (b - name[i]) * Pow256(i % 8);
      ModShift(rest, x, 0x1_0000_0000);
      ShiftedByte(b - name[i], i % 8);
    }
  }

  // ---------------------------------------------------------------- damage to one record

  /** A channel is refused if the checksum does not fit, and else read as it is written. */
  lemma DamagedChan(c: Chan, name: CString, s: Fields, rest: seq<Record>)
    requires Storable(c) && |name| == |c.name|
    requires s == FieldsOf(c).(timestamp := s.timestamp, flag := s.flag)
    ensures var f := SavedChan(c)[2 := Name(name)][3 := Struct(s)] + rest;
            if TestCrc(name, s) == TestCrc(c.name, FieldsOf(c))
            then ParseChan(f) == Some((Reloaded(c).(name := name, timestamp := s.timestamp, flag := s.flag), rest))
            else ParseChan(f) == None
  {
    var l := NoteList(c.notes);
    var f := SavedChan(c)[2 := Name(name)][3 := Struct(s)] + rest;
    assert f[4..] == SavedOps(c.ops) + (SavedNotes(l) + rest);
    ReadSavedOps(c.ops, SavedNotes(l) + rest);
    ParseSavedNotes(l, rest);
    hide TestCrc, ReadOps, ParseNotes;
  }

  /** The whole file is refused exactly if the damaged channel is. */
  lemma DamagedFile(s: Saved, j: nat, d: seq<Record>)
    requires (forall i :: 0 <= i < |s.chs| ==> Storable(s.chs[i])) && j < |s.chs|
    requires var r := ParseChan(d + SavedChans(s.chs[j + 1..]));
             r.None? || r.value.1 == SavedChans(s.chs[j + 1..])
    ensures ParseFile(Before(s, j) + d + SavedChans(s.chs[j + 1..])).None?
            <==> ParseChan(d + SavedChans(s.chs[j + 1..])).None?
  {
    hide Storable, Reloaded, SavedChan, ParseChan, SavedChans, ParseChans;
    var t := SavedChans(s.chs[j + 1..]);
    var f, n := Before(s, j) + d + t, |s.chs| - j;
    assert f[2..] == SavedChans(s.chs[..j]) + (d + t);
    ParseSavedChans(s.chs[..j], d + t, n);
    assert |s.chs[..j]| + n == |s.chs|;
    RestParses(s.chs[j + 1..], d + t, n);
  }

  lemma RestParses(chs: seq<Chan>, g: seq<Record>, n: nat)
    requires (forall i :: 0 <= i < |chs| ==> Storable(chs[i])) && n == |chs| + 1
    requires ParseChan(g).None? || ParseChan(g).value.1 == SavedChans(chs)
    ensures ParseChans(g, n).None? <==> ParseChan(g).None?
  {
    hide Storable, Reloaded, SavedChan, ParseChan;
    assert SavedChans(chs) + [] == SavedChans(chs);
    ParseSavedChans(chs, [], 0);
    NoChans([]);
  }

  /** Channel j of the file with another name and other fields. */
  lemma DamageNoticed(s: Saved, j: nat, name: CString, d: Fields)
    requires (forall i :: 0 <= i < |s.chs| ==> Storable(s.chs[i])) && j < |s.chs| && |name| == |s.chs[j].name|
    requires d == FieldsOf(s.chs[j]).(timestamp := d.timestamp, flag := d.flag)
    ensures var f, k := SavedFile(s), NamePlace(s, j);
            && k + 1 < |f| && f[k] == Name(s.chs[j].name) && f[k + 1] == Struct(FieldsOf(s.chs[j]))
            && (ParseFile(f[k := Name(name)][k + 1 := Struct(d)]).None?
                <==> TestCrc(name, d) != TestCrc(s.chs[j].name, FieldsOf(s.chs[j])))
  {
    var c, t := s.chs[j], SavedChans(s.chs[j + 1..]);
    FileAround(s, j);
    SavedHead(c);
    hide SavedChan, ParseChan, SavedChans, ParseFile, SavedFile, Before, NamePlace, TestCrc, Storable, FieldsOf;
    var x := SavedChan(c)[2 := Name(name)][3 := Struct(d)];
    DamagedChan(c, name, d, t);
    DamagedFile(s, j, x);
    Spliced(Before(s, j), SavedChan(c), t, Name(name), Struct(d));
  }

  lemma SavedHead(c: Chan)
    ensures |SavedChan(c)| >= 4 && SavedChan(c)[2] == Name(c.name) && SavedChan(c)[3] == Struct(FieldsOf(c))
  {
  }

  lemma Spliced(a: seq<Record>, g: seq<Record>, b: seq<Record>, x: Record, y: Record)
    requires |g| >= 4
    ensures var f, k := a + g + b, |a| + 2;
            f[k] == g[2] && f[k + 1] == g[3] && f[k := x][k + 1 := y] == a + g[2 := x][3 := y] + b
  {
  }

  ghost predicate AllStorable(s: Saved) {
    forall i :: 0 <= i < |s.chs| ==> Storable(s.chs[i])
  }

  /**
   * One damaged byte of one name: the file is refused if and only if the byte is one of the first four of a
   * whole eight-byte word. The other four are beyond the 32 bits of the checksum, and a shorter rest is not in it.
   */
  lemma NameDamage(s: Saved, j: nat, i: nat, b: byte)
    requires AllStorable(s) && j < |s.chs| && i < |s.chs[j].name| && b != 0 && b != s.chs[j].name[i]
    ensures var f, k, name := SavedFile(s), NamePlace(s, j), s.chs[j].name;
            && k < |f| && f[k] == Name(name)
            && (ParseFile(f[k := Name(name[i := b])]).None? <==> i < |name| / 8 * 8 && i % 8 < 4)
  {
    hide SavedFile, ParseFile, NamePlace, TestCrc, Storable;
    var f, k, c := SavedFile(s), NamePlace(s, j), s.chs[j];
    DamageNoticed(s, j, c.name[i := b], FieldsOf(c));
    CrcOfName(c.name, FieldsOf(c), i, b);
    assert f[k := Name(c.name[i := b])][k + 1 := f[k + 1]] == f[k := Name(c.name[i := b])];
  }

  lemma CrcOfFields(name: CString, s: Fields, timestamp: nat, flag: nat)
    requires var x := timestamp - s.timestamp + flag - s.flag; -0x1_0000_0000 < x < 0x1_0000_0000 && x != 0
    ensures TestCrc(name, s.(timestamp := timestamp, flag := flag)) != TestCrc(name, s)
  {
    var x := timestamp - s.timestamp + flag - s.flag;
    ModShift(NameSum(name) + s.timestamp + s.noteCount + s.opCount + s.opMax + s.flag, x, 0x1_0000_0000);
    NoMultiple(x, 0x1_0000_0000);
    hide NameSum;
  }

  /** A damaged timestamp or flag, off by less than 32 bits can hold, is always noticed. */
  lemma FieldDamage(s: Saved, j: nat, timestamp: nat, flag: nat)
    requires AllStorable(s) && j < |s.chs|
    requires var c := s.chs[j];
             || (flag == c.flag && timestamp != c.timestamp && -0x1_0000_0000 < timestamp - c.timestamp < 0x1_0000_0000)
             || (timestamp == c.timestamp && flag != c.flag && -0x1_0000_0000 < flag - c.flag < 0x1_0000_0000)
    ensures var f, k := SavedFile(s), NamePlace(s, j);
            && k + 1 < |f| && f[k + 1].Struct?
            && ParseFile(f[k + 1 := Struct(f[k + 1].fields.(timestamp := timestamp, flag := flag))]).None?
  {
    hide SavedFile, ParseFile, NamePlace, TestCrc, Storable;
    var f, k, c := SavedFile(s), NamePlace(s, j), s.chs[j];
    var d := FieldsOf(c).(timestamp := timestamp, flag := flag);
    DamageNoticed(s, j, c.name, d);
    CrcOfFields(c.name, FieldsOf(c), timestamp, flag);
    assert f[k := f[k]] == f;
  }

  /** Four bytes as a number, the first one lowest. */
  function Quad(a: int, b: int, c: int, d: int): int {
    a + 0x100 * b + 0x1_0000 * c + 0x100_0000 * d
  }

  /** The lower, and the upper, halves of the whole eight-byte words of a name. */
  ghost function Lower(name: CString): int {
    if |name| < 8 then 0 else Quad(name[0], name[1], name[2], name[3]) + Lower(name[8..])
  }

  ghost function Upper(name: CString): int {
    if |name| < 8 then 0 else Quad(name[4], name[5], name[6], name[7]) + Upper(name[8..])
  }

  lemma {:induction false} SumHalves(name: CString)
    ensures NameSum(name) == Lower(name) + 0x1_0000_0000 * Upper(name)
  {
    hide WordOf;
    if |name| >= 8 {
      SumHalves(name[8..]);
      EightBytes(name[..8]);
    }
  }

  /** The checksum that is written: the lower halves of the words of the name, and five of the fields. */
  lemma ChecksumValue(s: Saved, j: nat)
    requires j < |s.chs|
    ensures var c, k := s.chs[j], NamePlace(s, j);
            && k - 2 < |SavedFile(s)|
            && SavedFile(s)[k - 2]
               == Crc((Lower(c.name) + c.timestamp + c.noteCount + |c.ops| + c.opMax + c.flag) % 0x1_0000_0000)
  {
    var c := s.chs[j];
    FileAround(s, j);
    assert SavedChan(c)[0] == Crc(TestCrc(c.name, FieldsOf(c)));
    CrcOfHalves(c);
    hide SavedChans, TestCrc, Before, Lower;
  }

  lemma CrcOfHalves(c: Chan)
    ensures TestCrc(c.name, FieldsOf(c))
            == (Lower(c.name) + c.timestamp + c.noteCount + |c.ops| + c.opMax + c.flag) % 0x1_0000_0000
  {
    hide NameSum, Lower, Upper;
    SumHalves(c.name);
    MultipleOf(Upper(c.name), 0x1_0000_0000);
    ModShift(Lower(c.name) + c.timestamp + c.noteCount + |c.ops| + c.opMax + c.flag, 0x1_0000_0000 * Upper(c.name),
             0x1_0000_0000);
  }

  lemma EightBytes(w: CString)
    requires |w| == 8
    ensures WordOf(w) == Quad(w[0], w[1], w[2], w[3]) + 0x1_0000_0000 * Quad(w[4], w[5], w[6], w[7])
  {
    WordFour(w);
    WordFour(w[4..]);
    assert w[4..][4..] == [];
  }

  lemma WordFour(w: CString)
    requires |w| >= 4
    ensures WordOf(w) == Quad(w[0], w[1], w[2], w[3]) + 0x1_0000_0000 * WordOf(w[4..])
  {
    assert w[1..][1..] == w[2..] && w[2..][1..] == w[3..] && w[3..][1..] == w[4..];
    assert WordOf(w[1..]) == w[1] + 256 * WordOf(w[2..]) && WordOf(w[2..]) == w[2] + 256 * WordOf(w[3..]);
    assert WordOf(w[3..]) == w[3] + 256 * WordOf(w[4..]);
  }
}
