/** One attempt from the score poll to the MODE lines that go out. */
module FixModes {
  import opened CStrings
  import opened Channels
  import opened FixSelection
  import Tokens
  import Modes
  import ModeLines

  const NICKLEN := 12
  const PLUS: byte := 0x2b
  const OP: byte := 0x6f

  /** The array of nicks as allocated: n names, the ones that were not filled in blank. */
  function Names(opped: seq<Client>, n: nat): (r: seq<CString>)
    requires |opped| <= n
    ensures |r| == n
  {
    seq(n, i requires 0 <= i < n => if i < |opped| then opped[i].nick else [])
  }

  /** What goes out for the clients chosen: nothing for nobody, and otherwise lines for the whole array. */
  ghost predicate OpsGiven(channel: CString, chosen: seq<Client>, wanted: nat, modes: int, cmds: seq<CString>)
    requires |chosen| <= wanted
  {
    if chosen == [] then cmds == []
    else exists batches ::
        && Modes.Sent(channel, PLUS, OP, Modes.Limit(modes), cmds, batches)
        && Modes.Flat(batches) == Modes.Fitting(channel, Names(chosen, wanted))
  }

  /** Copies the nicks into their buffers and hands the whole array on. */
  method GiveOps(channel: CString, opped: seq<Client>, wanted: nat, modes: int) returns (cmds: seq<CString>)
    requires |opped| <= wanted && forall o <- opped :: |o.nick| <= NICKLEN
    ensures OpsGiven(channel, opped, wanted, modes, cmds)
  {
    if |opped| == 0 { return []; }
    cmds := Modes.PerformModeGroup(channel, PLUS, OP, Names(opped, wanted), modes);
  }

  ghost predicate NicksFit(cs: seq<Client>) {
    forall c <- cs :: |c.nick| <= NICKLEN
  }

  /** ocf_manual_fix_stage_two with what it sends. */
  method ManualAttempt(channel: CString, c: Channel?, voiced: seq<Client>, peons: seq<Client>, numOps: nat,
                       numClients: nat, setting: int, modes: int, maxScore: nat, t: int)
    returns (fixed: bool, cmds: seq<CString>)
    requires (c != null ==> c.Valid()) && NicksFit(voiced + peons)
    ensures numOps >= Wanted(setting) ==> fixed && cmds == []
    ensures numOps < Wanted(setting) && BlanksMatchNobody(voiced + peons, MinScore(maxScore, t)) ==>
              var chosen := Selection(ReadOps(c), voiced + peons, Wanted(setting) - numOps, MinScore(maxScore, t));
              && OpsGiven(channel, chosen, Wanted(setting), modes, cmds)
              && (fixed <==> chosen != [] && Enough(numOps, |chosen|, numClients, Wanted(setting)))
  {
    hide MinScore, Selection, BlanksMatchNobody;
    var opped;
    fixed, opped := StageTwo(c, voiced, peons, numOps, numClients, setting, maxScore, t);
    cmds := GiveOps(channel, opped, Wanted(setting), modes);
  }

  /** ocf_fix_opless_channel with the op lines it sends. */
  method AutoAttempt(channel: CString, c: Channel?, voiced: seq<Client>, peons: seq<Client>, numOps: nat,
                     numClients: nat, setting: int, modes: int, maxScore: nat, t: int)
    returns (fixed: bool, cmds: seq<CString>)
    requires (c != null ==> c.Valid()) && NicksFit(voiced + peons)
    ensures maxScore as real <= ABS_END * OCF_MAX_SCORE as real ==> !fixed && cmds == []
    ensures maxScore as real > ABS_END * OCF_MAX_SCORE as real && numOps >= Wanted(setting) ==> fixed && cmds == []
    ensures maxScore as real > ABS_END * OCF_MAX_SCORE as real && numOps < Wanted(setting)
            && BlanksMatchNobody(voiced + peons, MinScore(maxScore, t)) ==>
              var chosen := Selection(ReadOps(c), voiced + peons, Wanted(setting) - numOps, MinScore(maxScore, t));
              && OpsGiven(channel, chosen, Wanted(setting), modes, cmds)
              && (fixed <==> (numOps > 0 || chosen != []) && Enough(numOps, |chosen|, numClients, Wanted(setting)))
  {
    hide MinScore, Selection, BlanksMatchNobody;
    var opped;
    fixed, opped := FixOpless(c, voiced, peons, numOps, numClients, setting, maxScore, t);
    cmds := GiveOps(channel, opped, Wanted(setting), modes);
  }

  /** How many mode letters the lines carry. */
  ghost function Letters(batches: seq<seq<CString>>): nat {
    if batches == [] then 0 else Letters(batches[..|batches| - 1]) + |batches[|batches| - 1]|
  }

  lemma {:induction false} LettersFlat(batches: seq<seq<CString>>)
    ensures Letters(batches) == |Modes.Flat(batches)|
  {
    if batches != [] { LettersFlat(batches[..|batches| - 1]); }
  }

  /**
   * On a channel whose name leaves room for a nick, every chosen client is opped once and in order, and the lines
   * carry a mode letter for each name of the array: more letters than nicks unless the array is full.
   */
  lemma LettersForTheArray(channel: CString, chosen: seq<Client>, wanted: nat, modes: int, cmds: seq<CString>)
    requires 0 < |chosen| <= wanted && NicksFit(chosen) && 8 + |channel| + 2 + NICKLEN < Modes.LINE_LENGTH
    requires OpsGiven(channel, chosen, wanted, modes, cmds)
    ensures exists batches ::
              && Modes.Sent(channel, PLUS, OP, Modes.Limit(modes), cmds, batches)
              && Modes.Flat(batches) == Names(chosen, wanted) && Letters(batches) == wanted
  {
    var names := Names(chosen, wanted);
    forall i | 0 <= i < |names| ensures Modes.Fits(channel, names[i]) {
      if i < |chosen| { assert chosen[i] in chosen; }
    }
    Modes.AllFit(channel, names);
    hide Modes.Sent, Modes.Flat;
    var batches :| Modes.Sent(channel, PLUS, OP, Modes.Limit(modes), cmds, batches)
                   && Modes.Flat(batches) == Modes.Fitting(channel, names);
    LettersFlat(batches);
  }

  /** A line that ops, as the server reads it. */
  ghost predicate OpsLine(channel: CString, cmd: CString, args: seq<CString>) {
    Tokens.Split(cmd, 0x20) == [[0x4d, 0x4f, 0x44, 0x45], channel, [0x2b] + seq(|args|, _ => 0x6f)] + ModeLines.NonBlank(args)
  }

  /** Every line that goes out says MODE, the channel, a plus with as many o as names, and the names. */
  lemma LinesReadBack(channel: CString, chosen: seq<Client>, wanted: nat, modes: int, cmds: seq<CString>)
    requires 0 < |chosen| <= wanted && NicksFit(chosen) && 8 + |channel| + 2 + NICKLEN < Modes.LINE_LENGTH
    requires OpsGiven(channel, chosen, wanted, modes, cmds)
    requires Tokens.Piece(channel, 0x20) && forall o <- chosen :: 0x20 !in o.nick
    ensures exists batches ::
              && |batches| == |cmds| && Modes.Flat(batches) == Names(chosen, wanted)
              && forall i :: 0 <= i < |cmds| ==> OpsLine(channel, cmds[i], batches[i])
  {
    hide Modes.Sent, Modes.Flat, OpsLine;
    LettersForTheArray(channel, chosen, wanted, modes, cmds);
    var batches :| && Modes.Sent(channel, PLUS, OP, Modes.Limit(modes), cmds, batches)
                   && Modes.Flat(batches) == Names(chosen, wanted) && Letters(batches) == wanted;
    NamesPlain(chosen, wanted);
    SentReadBack(channel, modes, cmds, batches);
  }

  lemma NamesPlain(chosen: seq<Client>, wanted: nat)
    requires |chosen| <= wanted && forall o <- chosen :: 0x20 !in o.nick
    ensures forall n <- Names(chosen, wanted) :: 0x20 !in n
  {
    var names := Names(chosen, wanted);
    forall n <- names ensures 0x20 !in n {
      var k :| 0 <= k < |names| && names[k] == n;
      if k < |chosen| { assert chosen[k] in chosen; }
    }
  }

  lemma SentReadBack(channel: CString, modes: int, cmds: seq<CString>, batches: seq<seq<CString>>)
    requires Modes.Sent(channel, PLUS, OP, Modes.Limit(modes), cmds, batches)
    requires Tokens.Piece(channel, 0x20) && forall n <- Modes.Flat(batches) :: 0x20 !in n
    ensures |batches| == |cmds| && forall i :: 0 <= i < |cmds| ==> OpsLine(channel, cmds[i], batches[i])
  {
    hide OpsLine, Modes.Flat, Modes.Line;
    forall i | 0 <= i < |cmds| ensures OpsLine(channel, cmds[i], batches[i]) {
      forall j | 0 <= j < |batches[i]| ensures 0x20 !in batches[i][j] { InFlat(batches, i, j); }
      OneLine(channel, batches[i]);
    }
  }

  lemma {:induction false} InFlat(batches: seq<seq<CString>>, i: nat, j: nat)
    requires i < |batches| && j < |batches[i]|
    ensures batches[i][j] in Modes.Flat(batches)
  {
    if i < |batches| - 1 { InFlat(batches[..|batches| - 1], i, j); }
  }

  lemma OneLine(channel: CString, args: seq<CString>)
    requires Tokens.Piece(channel, 0x20) && forall j :: 0 <= j < |args| ==> 0x20 !in args[j]
    ensures OpsLine(channel, Modes.Line(channel, PLUS, OP, args), args)
  {
    ModeLines.LineReadsBack(channel, PLUS, OP, args);
    assert ModeLines.Signs(PLUS, OP, |args|) == [0x2b] + seq(|args|, _ => 0x6f);
    hide Modes.Line, Tokens.Split;
  }
}
