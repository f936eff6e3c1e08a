/** The threshold of a fix in whole numbers: where it starts, how it falls and where it ends. */
module FixThreshold {
  import opened OpRecords
  import opened FixSelection

  lemma TruncReaches(x: real, n: int)
    requires n >= 1
    ensures n <= Trunc(x) <==> n as real <= x
  {
  }

  lemma LineInWhole(top: int, first: int, last: int, t: int)
    ensures Line(top as real, first as real / 100.0, last as real / 100.0, t)
            == (top * (first * (3600 - t) + last * t)) as real / 360000.0
  {
    var p, f, l, u := top as real, first as real, last as real, t as real;
    assert p * (f / 100.0) == p * f / 100.0 && (l / 100.0) * p == p * l / 100.0;
    Interpolated(p * f, p * l, u);
    WholeProduct(top, first, last, t);
  }

  lemma WholeProduct(top: int, first: int, last: int, t: int)
    ensures (top * (first * (3600 - t) + last * t)) as real
            == top as real * first as real * (3600.0 - t as real) + top as real * last as real * t as real
  {
    ProductIsReal(first, 3600 - t);
    ProductIsReal(last, t);
    ProductIsReal(top, first * (3600 - t) + last * t);
    var p, f, l, u := top as real, first as real, last as real, t as real;
    assert p * (f * (3600.0 - u) + l * u) == p * (f * (3600.0 - u)) + p * (l * u);
    assert p * (f * (3600.0 - u)) == p * f * (3600.0 - u) && p * (l * u) == p * l * u;
  }

  lemma {:induction false} ProductIsReal(a: int, b: int)
    ensures (a * b) as real == a as real * b as real
    decreases if a < 0 then -a else a
  {
    if a < 0 {
      ProductIsReal(a + 1, b);
      assert a * b == (a + 1) * b - b;
    } else if a > 0 {
      ProductIsReal(a - 1, b);
      assert a * b == (a - 1) * b + b;
    }
  }

  lemma Interpolated(a: real, b: real, u: real)
    ensures a / 100.0 - u / 3600.0 * (a / 100.0 - b / 100.0) == (a * (3600.0 - u) + b * u) / 360000.0
  {
    var d := a - b;
    assert u / 3600.0 * (d / 100.0) == u * d / 360000.0;
    assert a * (3600.0 - u) + b * u == 3600.0 * a - u * d;
  }

  lemma Scaled(n: int, x: int)
    ensures n as real <= x as real / 360000.0 <==> n * 360000 <= x
  {
  }

  /**
   * A score of n meets the threshold t seconds into a fix if and only if it is below neither of the two lines:
   * from 20 to 4 percent of 4032, and from 90 to 30 percent of the channel's best score.
   */
  lemma ThresholdIsLinear(maxScore: nat, t: int, n: int)
    requires n >= 1
    ensures n <= MinScore(maxScore, t) <==>
            || n * 360000 <= 4032 * (20 * (3600 - t) + 4 * t)
            || n * 36000 <= maxScore * (9 * (3600 - t) + 3 * t)
  {
    var x, y := 4032 * (20 * (3600 - t) + 4 * t), maxScore * (90 * (3600 - t) + 30 * t);
    LineInWhole(4032, 20, 4, t);
    LineInWhole(maxScore, 90, 30, t);
    assert ABS_BEGIN == 20.0 / 100.0 && ABS_END == 4.0 / 100.0 && REL_BEGIN == 90.0 / 100.0 && REL_END == 30.0 / 100.0;
    assert OCF_MAX_SCORE == 4032;
    TruncReaches(Line(4032.0, ABS_BEGIN, ABS_END, t), n);
    TruncReaches(Line(maxScore as real, REL_BEGIN, REL_END, t), n);
    Scaled(n, x);
    Scaled(n, y);
    Tenfold(maxScore, t);
    hide Line, Trunc;
  }

  lemma Tenfold(m: int, t: int)
    ensures m * (90 * (3600 - t) + 30 * t) == 10 * (m * (9 * (3600 - t) + 3 * t))
  {
    var k := 9 * (3600 - t) + 3 * t;
    assert 90 * (3600 - t) + 30 * t == 10 * k;
  }

  /** At the start nobody gets ops below 806, or below nine tenths of the best score. */
  lemma ThresholdAtStart(maxScore: nat)
    ensures MinScore(maxScore, 0) == if 9 * maxScore / 10 > 806 then 9 * maxScore / 10 else 806
  {
    var y := if 9 * maxScore / 10 > 806 then 9 * maxScore / 10 else 806;
    ThresholdIsLinear(maxScore, 0, y);
    ThresholdIsLinear(maxScore, 0, y + 1);
  }

  /** At the end 161 or three tenths of the best score are enough. */
  lemma ThresholdAtEnd(maxScore: nat)
    ensures MinScore(maxScore, 3600) == if 3 * maxScore / 10 > 161 then 3 * maxScore / 10 else 161
  {
    var y := if 3 * maxScore / 10 > 161 then 3 * maxScore / 10 else 161;
    ThresholdIsLinear(maxScore, 3600, y);
    ThresholdIsLinear(maxScore, 3600, y + 1);
  }

  /** Whoever an attempt in the window ops has a score that, give or take a fraction, lies above both lines. */
  lemma OppedAboveLines(ops: seq<Op>, cs: seq<Client>, slots: nat, maxScore: nat, t: int, c: Client)
    requires WellFormed(ops) && Descending(ops) && 0 <= t <= 3600
    requires c in Selection(ops, cs, slots, MinScore(maxScore, t))
    ensures (Stored(ops, c) + 1) * 360000 > 4032 * (20 * (3600 - t) + 4 * t)
    ensures (Stored(ops, c) + 1) * 36000 > maxScore * (9 * (3600 - t) + 3 * t)
  {
    var min := MinScore(maxScore, t);
    ThresholdIsLinear(maxScore, t, 1);
    assert min >= 1;
    hide MinScore, Selection, Stored, Qualified;
    SelectionIsBest(ops, cs, slots, min);
    assert c in multiset(Selection(ops, cs, slots, min));
    QualifiedCount(ops, cs, min, c);
    ThresholdIsLinear(maxScore, t, Stored(ops, c) + 1);
  }
}
