/** Small facts about sequences. */
module Sequences {
  /** Taking out, or replacing, the first element that is not worked off yet. */
  lemma AtTheSeam<T>(done: seq<T>, was: seq<T>, n: nat, x: T)
    requires n < |was|
    ensures var l := done + was[n..];
            && l[|done|] == was[n] && l[..|done|] + l[|done| + 1..] == done + was[n + 1..]
            && l[|done| := x] == done + [x] + was[n + 1..]
  {
    var l := done + was[n..];
    assert l[|done| + 1..] == was[n + 1..] && l[..|done|] == done;
  }
}
