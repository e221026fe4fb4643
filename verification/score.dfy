/** Scoring (`updateScore`): a reward per clear, scaled by the level, and a line counter
    that drives the level. */
module Scoring {
  /** A JavaScript number as the score can hold it: a count of points, or `NaN` once an
      addition has read past the end of the reward table (`undefined * k` is `NaN`,
      and `NaN` absorbs every later addition). */
  datatype Score = Points(value: nat) | NaN

  /** The three counters `updateScore` maintains. */
  datatype Tally = Tally(score: Score, level: nat, lines: nat)

  /** Points for clearing 0, 1, 2, 3 or 4 rows at level 0. */
  const Rewards: seq<nat> := [0, 40, 100, 300, 1200]

  /** Rows per level. */
  const LinesPerLevel := 10

  const Start := Tally(Points(0), 0, 0)

  /** `updateScore(n)`. */
  function UpdateScore(t: Tally, n: nat): (r: Tally)
    ensures r.lines == t.lines + n
    ensures t.level <= r.level <= t.level + 1
    ensures r.level == t.level + 1 <==> t.lines + n >= (t.level + 1) * LinesPerLevel
    ensures n < |Rewards| && t.score.Points? ==>
      r.score == Points(t.score.value + Rewards[n] * (t.level + 1))
    ensures n >= |Rewards| || t.score.NaN? ==> r.score.NaN?
  {
    var score := if n < |Rewards| && t.score.Points?
      then Points(t.score.value + Rewards[n] * (t.level + 1))
      else NaN;
    var lines := t.lines + n;
    var level := if lines >= (t.level + 1) * LinesPerLevel then t.level + 1 else t.level;
    Tally(score, level, lines)
  }

  /** The tally a game keeps: a numeric score and the level equal to the tens of rows cleared. */
  predicate Consistent(t: Tally) {
    t.score.Points? && t.level == t.lines / LinesPerLevel
  }

  /** A clear of at most four rows keeps the tally consistent, and never lowers anything. */
  lemma UpdateKeepsConsistent(t: Tally, n: nat)
    requires Consistent(t) && n < |Rewards|
    ensures Consistent(UpdateScore(t, n))
    ensures UpdateScore(t, n).score.value >= t.score.value
    ensures UpdateScore(t, n).score.value > t.score.value <==> n > 0
  {
    var r := UpdateScore(t, n);
    assert t.lines < (t.level + 1) * LinesPerLevel;
    assert r.lines < (t.level + 2) * LinesPerLevel;
    if r.level == t.level + 1 {
      DivBetween(r.lines, t.level + 1);
    } else {
      DivBetween(r.lines, t.level);
    }
  }

  lemma DivBetween(n: nat, k: nat)
    requires k * LinesPerLevel <= n < (k + 1) * LinesPerLevel
    ensures n / LinesPerLevel == k
  {
  }

  /** Clearing more than ten rows at once would leave the level behind the line count:
      the level rises by one at most per call. */
  lemma BigClearLagsLevel()
    ensures UpdateScore(Start, 20).level == 1
    ensures UpdateScore(Start, 20).lines / LinesPerLevel == 2
  {
  }

  /** The reward table read past its end poisons the score for good. */
  lemma {:induction false} NaNAbsorbs(t: Tally, ns: seq<nat>)
    requires t.score.NaN?
    ensures Replay(t, ns).score.NaN?
    decreases |ns|
  {
    if |ns| > 0 {
      NaNAbsorbs(UpdateScore(t, ns[0]), ns[1..]);
    }
  }

  /** A run of clears, one `updateScore` call per entry. */
  function Replay(t: Tally, ns: seq<nat>): (r: Tally)
    ensures r.lines == t.lines + Total(ns)
    decreases |ns|
  {
    if |ns| == 0 then t else Replay(UpdateScore(t, ns[0]), ns[1..])
  }

  function Total(ns: seq<nat>): nat
    decreases |ns|
  {
    if |ns| == 0 then 0 else ns[0] + Total(ns[1..])
  }

  /** From the start of a game, any run of clears of at most four rows each leaves a numeric
      score that never fell, and a level equal to the tens of rows cleared. */
  lemma {:induction false} ReplayConsistent(t: Tally, ns: seq<nat>)
    requires Consistent(t)
    requires forall i :: 0 <= i < |ns| ==> ns[i] < |Rewards|
    ensures Consistent(Replay(t, ns))
    ensures Replay(t, ns).level == (t.lines + Total(ns)) / LinesPerLevel
    ensures Replay(t, ns).score.value >= t.score.value
    decreases |ns|
  {
    if |ns| > 0 {
      UpdateKeepsConsistent(t, ns[0]);
      ReplayConsistent(UpdateScore(t, ns[0]), ns[1..]);
    }
  }
}
