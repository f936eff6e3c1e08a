/** When an opless channel is put on the autofix list. */
module FixTrigger {
  import opened CStrings
  import opened OpRecords
  import opened Channels
  import opened FixTimes
  import opened FixSelection

  /** DB_get_oplist for one entry: the first record's score, or the zero it was initialised with. */
  ghost function TopScore(ops: seq<Op>): nat {
    if ops == [] then 0 else Score(ops[0])
  }

  /** Some client scores above the threshold at the end of the window. */
  ghost predicate Fixable(ops: seq<Op>, cs: seq<Client>) {
    exists i :: 0 <= i < |cs| && Stored(ops, cs[i]) > MinScore(TopScore(ops), FIX_WINDOW)
  }

  lemma EndOfWindow(maxScore: nat)
    ensures var r := Trunc(REL_END * maxScore as real);
            MinScore(maxScore, FIX_WINDOW) == if r > 161 then r else 161
    ensures Trunc(ABS_END * OCF_MAX_SCORE as real) == 161
  {
    assert Line(4032.0, ABS_BEGIN, ABS_END, FIX_WINDOW) == 161.28;
    assert Line(maxScore as real, REL_BEGIN, REL_END, FIX_WINDOW) == REL_END * maxScore as real;
  }

  /** has_a_scored_client */
  method HasScoredClient(c: Channel, voiced: seq<Client>, peons: seq<Client>) returns (r: bool)
    requires c.Valid()
    ensures Descending(c.View().ops) ==> (r <==> Fixable(c.View().ops, voiced + peons))
  {
    ghost var ops := c.View().ops;
    var top := 0;
    if c.opCount > 0 { top := ScoreOf(c.chanop[0]); }
    assert top == TopScore(ops);
    EndOfWindow(top);
    if top <= Trunc(ABS_END * OCF_MAX_SCORE as real) {
      if Descending(ops) { TooLow(ops, voiced + peons); }
      return false;
    }
    var users, hosts := DistinctUserHosts(voiced + peons);
    var t := TopUserHosts(c, users, hosts, 1);
    var score := if |t| == 0 then 0 else t[0].score;
    if Descending(ops) { BestDecides(ops, voiced + peons, Keys(users, hosts), MinScore(top, FIX_WINDOW)); }
    hide Matching, Fixable, Keys;
    r := score > Trunc(ABS_END * OCF_MAX_SCORE as real) && score > Trunc(REL_END * top as real);
  }

  lemma StoredBelowTop(ops: seq<Op>, c: Client)
    requires Descending(ops)
    ensures Stored(ops, c) <= TopScore(ops)
  {
  }

  lemma TooLow(ops: seq<Op>, cs: seq<Client>)
    requires Descending(ops) && TopScore(ops) <= 161
    ensures !Fixable(ops, cs)
  {
    EndOfWindow(TopScore(ops));
    forall i | 0 <= i < |cs| ensures Stored(ops, cs[i]) <= 161 { StoredBelowTop(ops, cs[i]); }
  }

  /** The best matching record decides for all clients. */
  lemma BestDecides(ops: seq<Op>, cs: seq<Client>, keys: seq<Key>, min: int)
    requires WellFormed(ops) && Descending(ops) && min >= 0
    requires forall k :: k in keys <==> exists c <- cs :: ClientKey(c) == k
    ensures var t := Take(Matching(ops, keys), 1);
            (exists i :: 0 <= i < |cs| && Stored(ops, cs[i]) > min) <==> |t| > 0 && Score(t[0]) > min
  {
    var t := Take(Matching(ops, keys), 1);
    TopIsBest(ops, keys, 1);
    if |t| > 0 && Score(t[0]) > min {
      assert t[0] in t;
      var c :| c in cs && ClientKey(c) == OpKey(t[0]);
      StoredOf(ops, t[0], c);
    }
    forall i | 0 <= i < |cs| && Stored(ops, cs[i]) > min ensures |t| > 0 && Score(t[0]) > min {
      var o := ops[IndexOf(ops, ClientKey(cs[i]))];
      assert cs[i] in cs && OpKey(o) in keys && o in ops;
    }
  }

  /**
   * A channel in scoring order is found fixable exactly when an attempt at the end of the window would op
   * someone even if the threshold were one point higher.
   */
  lemma FixableMeansOpped(ops: seq<Op>, cs: seq<Client>, slots: nat)
    requires WellFormed(ops) && Descending(ops) && slots > 0
    ensures Fixable(ops, cs) <==> Selection(ops, cs, slots, MinScore(TopScore(ops), FIX_WINDOW) + 1) != []
    ensures Fixable(ops, cs) ==> Selection(ops, cs, slots, MinScore(TopScore(ops), FIX_WINDOW)) != []
  {
    var min := MinScore(TopScore(ops), FIX_WINDOW);
    hide MinScore, Stored, Score;
    EndOfWindow(TopScore(ops));
    SelectionEmpty(ops, cs, slots, min + 1);
    SelectionEmpty(ops, cs, slots, min);
  }

  /** An attempt ops somebody exactly when some client meets the threshold. */
  lemma SelectionEmpty(ops: seq<Op>, cs: seq<Client>, slots: nat, min: int)
    requires WellFormed(ops) && Descending(ops) && slots > 0 && min >= 0
    ensures Selection(ops, cs, slots, min) != [] <==> exists i :: 0 <= i < |cs| && Stored(ops, cs[i]) >= min
  {
    hide Stored, Qualified, Selection, ByScore;
    SelectionIsBest(ops, cs, slots, min);
    QualifiedSome(ops, cs, min);
  }

  lemma {:induction false} QualifiedSome(ops: seq<Op>, cs: seq<Client>, min: int)
    ensures Qualified(ops, cs, min) != [] <==> exists i :: 0 <= i < |cs| && Stored(ops, cs[i]) >= min
  {
    hide Stored;
    if cs != [] {
      var p := cs[..|cs| - 1];
      QualifiedSome(ops, p, min);
      assert forall i :: 0 <= i < |p| ==> p[i] == cs[i];
    }
  }
}
