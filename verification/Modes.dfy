/** Packing mode changes into MODE lines. */
module Modes {
  import opened CStrings

  const LINE_LENGTH := 512       // IRCLINELEN
  const DEFAULT_MODES: nat := 4  // MAX_CHANNEL_MODES
  const SPACE: byte := 0x20
  const COMMAND: CString := [0x4d, 0x4f, 0x44, 0x45, 0x20]   // "MODE "

  ghost function ModeLetters(mode: byte, n: nat): (r: CString)
    requires mode != 0
    ensures |r| == n
  {
    if n == 0 then [] else ModeLetters(mode, n - 1) + [mode]
  }

  /** The arguments, each followed by a space. */
  ghost function Spaced(args: seq<CString>): (r: CString) {
    if args == [] then [] else Spaced(args[..|args| - 1]) + (args[|args| - 1] + [SPACE])
  }

  /** The command that sets one mode for each argument. */
  ghost function Line(channel: CString, sign: byte, mode: byte, args: seq<CString>): CString
    requires sign != 0 && mode != 0
  {
    COMMAND + channel + [SPACE] + [sign] + ModeLetters(mode, |args|) + [SPACE] + Spaced(args)
  }

  /** The size as it is worked out before the line is built. */
  ghost function Size(channel: CString, args: seq<CString>): nat {
    if args == [] then 8 + |channel| else Size(channel, args[..|args| - 1]) + 2 + |args[|args| - 1]|
  }

  /** The size worked out is the length of the command. */
  lemma {:induction false} SizeIsLength(channel: CString, sign: byte, mode: byte, args: seq<CString>)
    requires sign != 0 && mode != 0
    ensures |Line(channel, sign, mode, args)| == Size(channel, args)
  {
    if args != [] { SizeIsLength(channel, sign, mode, args[..|args| - 1]); }
  }

  /** The argument can be sent at all. */
  ghost predicate Fits(channel: CString, arg: CString) {
    Size(channel, []) + 2 + |arg| < LINE_LENGTH
  }

  /** n is the largest number of arguments, up to number, that fit on one line. */
  ghost predicate Fullest(channel: CString, args: seq<CString>, number: nat, n: nat)
    requires number <= |args|
  {
    && n <= number
    && (n > 0 ==> Size(channel, args[..n]) < LINE_LENGTH)
    && (n < number ==> Size(channel, args[..n + 1]) >= LINE_LENGTH)
  }

  /** How many arguments fit. */
  method CountModes(channel: CString, args: seq<CString>, number: nat) returns (n: nat)
    requires number <= |args|
    ensures Fullest(channel, args, number, n)
  {
    n := 0;
    var linesize := 8 + |channel|;
    while n < number && linesize + 2 + |args[n]| < LINE_LENGTH
      invariant n <= number && linesize == Size(channel, args[..n]) && (n > 0 ==> linesize < LINE_LENGTH)
    {
      assert args[..n + 1][..n] == args[..n];
      linesize := linesize + 2 + |args[n]|;
      n := n + 1;
    }
    assert n < number ==> args[..n + 1][..n] == args[..n];
  }

  /** Writes the command. */
  method BuildLine(channel: CString, sign: byte, mode: byte, args: seq<CString>) returns (cmd: CString)
    requires sign != 0 && mode != 0
    ensures cmd == Line(channel, sign, mode, args)
  {
    var n := |args|;
    cmd := COMMAND + channel + [SPACE] + [sign];
    ghost var head := cmd;
    for i := 0 to n
      invariant cmd == head + ModeLetters(mode, i)
    {
      cmd := cmd + [mode];
    }
    cmd := cmd + [SPACE];
    ghost var letters := cmd;
    for i := 0 to n
      invariant cmd == letters + Spaced(args[..i])
    {
      assert args[..i + 1][..i] == args[..i];
      cmd := cmd + (args[i] + [SPACE]);
    }
    assert args[..n] == args;
  }

  /** chanfix_perform_mode_num: builds the line in the command buffer, which it fits. */
  method PerformModeNum(channel: CString, sign: byte, mode: byte, args: seq<CString>, number: nat)
    returns (n: nat, cmd: CString)
    requires sign != 0 && mode != 0 && number <= |args|
    ensures Fullest(channel, args, number, n)
    ensures n > 0 ==> cmd == Line(channel, sign, mode, args[..n]) && |cmd| < LINE_LENGTH
  {
    n := CountModes(channel, args, number);
    if n == 0 { return 0, []; }
    SizeIsLength(channel, sign, mode, args[..n]);
    hide Line, Size;
    cmd := BuildLine(channel, sign, mode, args[..n]);
  }

  /** The arguments that can be sent at all, in order. */
  ghost function Fitting(channel: CString, args: seq<CString>): seq<CString> {
    if args == [] then []
    else (if Fits(channel, args[0]) then [args[0]] else []) + Fitting(channel, args[1..])
  }

  ghost function Flat(batches: seq<seq<CString>>): seq<CString> {
    if batches == [] then [] else Flat(batches[..|batches| - 1]) + batches[|batches| - 1]
  }

  ghost function Limit(setting: int): nat {
    if setting < 1 then DEFAULT_MODES else setting
  }

  /** What goes out: lines short enough, each with at least one and at most limit arguments. */
  ghost predicate Sent(channel: CString, sign: byte, mode: byte, limit: nat, cmds: seq<CString>, batches: seq<seq<CString>>)
    requires sign != 0 && mode != 0
  {
    && |cmds| == |batches|
    && forall i :: 0 <= i < |cmds| ==>
         && 1 <= |batches[i]| <= limit && |cmds[i]| < LINE_LENGTH
         && cmds[i] == Line(channel, sign, mode, batches[i])
  }

  lemma {:induction false} SizeGrows(channel: CString, args: seq<CString>, k: nat)
    requires k < |args|
    ensures Size(channel, args) >= Size(channel, []) + 2 + |args[k]|
  {
    if k < |args| - 1 {
      SizeGrows(channel, args[..|args| - 1], k);
    } else {
      SizeLeast(channel, args[..|args| - 1]);
    }
  }

  lemma {:induction false} SizeLeast(channel: CString, args: seq<CString>)
    ensures Size(channel, args) >= Size(channel, [])
  {
    if args != [] { SizeLeast(channel, args[..|args| - 1]); }
  }

  lemma {:induction false} AllFit(channel: CString, args: seq<CString>)
    requires forall i :: 0 <= i < |args| ==> Fits(channel, args[i])
    ensures Fitting(channel, args) == args
  {
    if args != [] { AllFit(channel, args[1..]); }
  }

  lemma {:induction false} FittingConcat(channel: CString, a: seq<CString>, b: seq<CString>)
    ensures Fitting(channel, a + b) == Fitting(channel, a) + Fitting(channel, b)
  {
    hide Fits;
    if a == [] {
      assert a + b == b;
    } else {
      var h, c := if Fits(channel, a[0]) then [a[0]] else [], a + b;
      assert c[0] == a[0] && c[1..] == a[1..] + b;
      assert Fitting(channel, c) == h + Fitting(channel, c[1..]) && Fitting(channel, a) == h + Fitting(channel, a[1..]);
      hide Fitting;
      FittingConcat(channel, a[1..], b);
    }
  }

  /** A line full of arguments, or one argument skipped: either way the first arguments are dealt with. */
  lemma BatchFits(channel: CString, args: seq<CString>, number: nat, n: nat)
    requires number <= |args| && number > 0 && Fullest(channel, args, number, n)
    ensures n > 0 ==> Fitting(channel, args[..n]) == args[..n]
    ensures n == 0 ==> Fitting(channel, args[..1]) == []
  {
    if n > 0 {
      forall i | 0 <= i < n ensures Fits(channel, args[..n][i]) { SizeGrows(channel, args[..n], i); }
      AllFit(channel, args[..n]);
    } else {
      assert args[..1][..0] == [] && args[..1][1..] == [];
    }
  }

  /** How far a line, or a skipped argument, takes the loop. */
  lemma FittingOn(channel: CString, args: seq<CString>, i: nat, number: nat, n: nat)
    requires i < |args| && 0 < number <= |args| - i && Fullest(channel, args[i..], number, n)
    ensures n > 0 ==> Fitting(channel, args[..i + n]) == Fitting(channel, args[..i]) + args[i..][..n]
    ensures n == 0 ==> Fitting(channel, args[..i + 1]) == Fitting(channel, args[..i])
  {
    var rest, step := args[i..], if n == 0 then 1 else n;
    BatchFits(channel, rest, number, n);
    hide Fitting, Fullest;
    FittingConcat(channel, args[..i], rest[..step]);
    assert args[..i + step] == args[..i] + rest[..step];
  }

  /** One more line. */
  lemma SentSnoc(channel: CString, sign: byte, mode: byte, limit: nat, cmds: seq<CString>, batches: seq<seq<CString>>,
                 cmd: CString, batch: seq<CString>)
    requires sign != 0 && mode != 0 && Sent(channel, sign, mode, limit, cmds, batches)
    requires 1 <= |batch| <= limit && |cmd| < LINE_LENGTH && cmd == Line(channel, sign, mode, batch)
    ensures Sent(channel, sign, mode, limit, cmds + [cmd], batches + [batch])
    ensures Flat(batches + [batch]) == Flat(batches) + batch
  {
    assert (batches + [batch])[..|batches|] == batches;
  }

  /**
   * chanfix_perform_mode_group: sends every argument that fits on a line, in order and once each, and
   * always moves on.
   */
  method PerformModeGroup(channel: CString, sign: byte, mode: byte, args: seq<CString>, setting: int)
    returns (cmds: seq<CString>)
    requires sign != 0 && mode != 0
    ensures exists batches :: Sent(channel, sign, mode, Limit(setting), cmds, batches) && Flat(batches) == Fitting(channel, args)
  {
    var max: nat := if setting < 1 then DEFAULT_MODES else setting;
    assert Sent(channel, sign, mode, max, [], []) && Flat([]) == [] && args[..0] == [] && Fitting(channel, []) == [];
    hide Line, Size, Fits, Sent, Flat, Fitting;
    var i := 0;
    cmds := [];
    ghost var batches: seq<seq<CString>> := [];
    while i < |args|
      invariant i <= |args| && Sent(channel, sign, mode, max, cmds, batches)
      invariant Flat(batches) == Fitting(channel, args[..i])
    {
      var rest, number := args[i..], if |args| - i < max then |args| - i else max;
      var j, cmd := PerformModeNum(channel, sign, mode, rest, number);
      FittingOn(channel, args, i, number, j);
      if j == 0 {
        i := i + 1;
      } else {
        SentSnoc(channel, sign, mode, max, cmds, batches, cmd, rest[..j]);
        cmds, batches := cmds + [cmd], batches + [rest[..j]];
        i := i + j;
      }
    }
    assert args[..i] == args;
  }
}
