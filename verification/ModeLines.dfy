/** A MODE line read back: the words that the server finds in it. */
module ModeLines {
  import opened CStrings
  import opened Tokens
  import opened Modes

  ghost function Repeated(b: byte, n: nat): (s: CString)
    requires b != 0
    ensures |s| == n && forall i :: 0 <= i < n ==> s[i] == b
  {
    seq(n, _ => b)
  }

  lemma {:induction false} LettersRepeat(mode: byte, n: nat)
    requires mode != 0
    ensures ModeLetters(mode, n) == Repeated(mode, n)
  {
    if n > 0 { LettersRepeat(mode, n - 1); }
  }

  ghost function NonBlank(args: seq<CString>): seq<CString> {
    if args == [] then [] else (if args[0] == [] then [] else [args[0]]) + NonBlank(args[1..])
  }

  lemma Regroup(x: CString, y: CString, z: CString)
    ensures x + y + z == x + (y + z)
  {
  }

  lemma {:induction false} SpacedFirst(args: seq<CString>)
    requires args != []
    ensures Spaced(args) == args[0] + [SPACE] + Spaced(args[1..])
  {
    var n := |args| - 1;
    var space: CString := [SPACE];
    if n == 0 {
      assert Spaced(args[..0]) == [] && args[1..] == [] && Spaced([]) == [];
      assert [] + (args[0] + space) == args[0] + space + [];
    } else {
      var t := args[1..];
      assert args[..n][0] == args[0] && args[..n][1..] == t[..n - 1] && t[n - 1] == args[n];
      assert Spaced(args) == Spaced(args[..n]) + (args[n] + space) && Spaced(t) == Spaced(t[..n - 1]) + (args[n] + space);
      hide Spaced;
      SpacedFirst(args[..n]);
      Regroup(args[0] + space, Spaced(t[..n - 1]), args[n] + space);
    }
  }

  lemma SplitBehind(s: CString)
    ensures Split([SPACE] + s, SPACE) == Split(s, SPACE)
  {
    assert ([SPACE] + s)[1..] == s;
  }

  lemma {:induction false} SpacedWords(args: seq<CString>)
    requires forall i :: 0 <= i < |args| ==> SPACE !in args[i]
    ensures Split(Spaced(args), SPACE) == NonBlank(args)
  {
    if args != [] {
      hide Spaced, Split;
      var a, rest := args[0], Spaced(args[1..]);
      SpacedFirst(args);
      SpacedWords(args[1..]);
      SplitBehind(rest);
      assert a + [SPACE] + rest == a + ([SPACE] + rest);
      if a == [] {
        assert a + ([SPACE] + rest) == [SPACE] + rest;
      } else {
        SplitHead(a, [SPACE] + rest, SPACE);
      }
    }
  }

  /** One word with a space behind it. */
  lemma WordThen(t: CString, rest: CString)
    requires Piece(t, SPACE)
    ensures Split(t + [SPACE] + rest, SPACE) == [t] + Split(rest, SPACE)
  {
    assert t + [SPACE] + rest == t + ([SPACE] + rest);
    SplitHead(t, [SPACE] + rest, SPACE);
    SplitBehind(rest);
  }

  /** MODE */
  function Word(): CString {
    [0x4d, 0x4f, 0x44, 0x45]
  }

  ghost function Signs(sign: byte, mode: byte, n: nat): CString
    requires sign != 0 && mode != 0
  {
    [sign] + Repeated(mode, n)
  }

  lemma LineParts(channel: CString, sign: byte, mode: byte, args: seq<CString>)
    requires sign != 0 && mode != 0
    ensures Line(channel, sign, mode, args)
            == Word() + [SPACE] + (channel + [SPACE] + (Signs(sign, mode, |args|) + [SPACE] + Spaced(args)))
  {
    LettersRepeat(mode, |args|);
    hide Spaced, Repeated, ModeLetters;
    assert COMMAND == Word() + [SPACE];
    RegroupAll(COMMAND, channel, [SPACE], [sign], Repeated(mode, |args|), Spaced(args));
  }

  lemma RegroupAll(word: CString, channel: CString, space: CString, sign: CString, letters: CString, rest: CString)
    ensures word + channel + space + sign + letters + space + rest
            == word + (channel + space + (sign + letters + space + rest))
  {
    Regroup(word, channel, space);
    Regroup(word, channel + space, sign);
    Regroup(word, channel + space + sign, letters);
    Regroup(word, channel + space + sign + letters, space);
    Regroup(word, channel + space + sign + letters + space, rest);
    Regroup(channel + space, sign, letters);
    Regroup(channel + space, sign + letters, space);
    Regroup(channel + space, sign + letters + space, rest);
  }

  /** The words are MODE, the channel, the sign with one letter for each argument, and the arguments but for blank ones. */
  lemma LineReadsBack(channel: CString, sign: byte, mode: byte, args: seq<CString>)
    requires sign != 0 && sign != SPACE && mode != 0 && mode != SPACE && Piece(channel, SPACE)
    requires forall i :: 0 <= i < |args| ==> SPACE !in args[i]
    ensures Split(Line(channel, sign, mode, args), SPACE)
            == [Word(), channel, Signs(sign, mode, |args|)] + NonBlank(args)
  {
    hide Line, Split, Spaced, Signs, Word, Piece;
    LineParts(channel, sign, mode, args);
    SpacedWords(args);
    SignsPiece(sign, mode, |args|);
    ThreeWords(Word(), channel, Signs(sign, mode, |args|), Spaced(args));
  }

  lemma SignsPiece(sign: byte, mode: byte, n: nat)
    requires sign != 0 && sign != SPACE && mode != 0 && mode != SPACE
    ensures Piece(Signs(sign, mode, n), SPACE) && Piece(Word(), SPACE)
  {
  }

  lemma ThreeWords(a: CString, b: CString, c: CString, rest: CString)
    requires Piece(a, SPACE) && Piece(b, SPACE) && Piece(c, SPACE)
    ensures Split(a + [SPACE] + (b + [SPACE] + (c + [SPACE] + rest)), SPACE) == [a, b, c] + Split(rest, SPACE)
  {
    hide Split, Piece;
    WordThen(c, rest);
    WordThen(b, c + [SPACE] + rest);
    WordThen(a, b + [SPACE] + (c + [SPACE] + rest));
  }

  /** An argument can be sent if and only if a line with it alone is short enough. */
  lemma FitsExact(channel: CString, sign: byte, mode: byte, arg: CString)
    requires sign != 0 && mode != 0
    ensures Fits(channel, arg) <==> |channel| + |arg| <= 501
    ensures Fits(channel, arg) <==> |Line(channel, sign, mode, [arg])| < 512
  {
    assert [arg][..0] == [];
    SizeIsLength(channel, sign, mode, [arg]);
  }

  /** Exactly the arguments that are short enough are kept, in order. */
  lemma {:induction false} FittingSome(channel: CString, args: seq<CString>, a: CString)
    ensures multiset(Fitting(channel, args))[a] == if |channel| + |a| <= 501 then multiset(args)[a] else 0
  {
    if args != [] {
      FittingSome(channel, args[1..], a);
      assert args == [args[0]] + args[1..];
    }
  }

  /** Four modes on a line if there is no setting. */
  lemma LimitExact(setting: int)
    ensures Limit(setting) == if setting >= 1 then setting else 4
  {
  }
}
