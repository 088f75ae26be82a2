/**
  A score is the (xp, level) pair that a user_stats row and the users row both carry.
  Every write in the ledger moves a score by the same rule: floor the xp at 0, ratchet the level.
 */
module Scores {
  import opened Leveling

  datatype Score = Score(xp: int, level: int)

  const NEW_SCORE := Score(0, 1)

  function Bump(score: Score, delta: int): Score {
    var xp := Max(0, score.xp + delta);
    Score(xp, Max(score.level, LevelFromXp(xp)))
  }

  ghost predicate ValidScore(score: Score) {
    0 <= score.xp && 1 <= LevelFromXp(score.xp) <= score.level
  }

  lemma NewScoreValid()
    ensures ValidScore(NEW_SCORE)
  {
  }

  lemma BumpValid(score: Score, delta: int)
    requires ValidScore(score)
    ensures ValidScore(Bump(score, delta))
    ensures score.level <= Bump(score, delta).level
    ensures Bump(score, delta).xp >= score.xp + delta
  {
    LevelAtLeastOne(Bump(score, delta).xp);
  }

  // ---------------------------------------------------------------- sequences of requests

  function BumpAll(score: Score, deltas: seq<int>): Score {
    if deltas == [] then score
    else Bump(BumpAll(score, deltas[..|deltas| - 1]), deltas[|deltas| - 1])
  }

  function Sum(values: seq<int>): int {
    if values == [] then 0
    else Sum(values[..|values| - 1]) + values[|values| - 1]
  }

  lemma {:induction false} BumpAllConcat(score: Score, first: seq<int>, second: seq<int>)
    ensures BumpAll(score, first + second) == BumpAll(BumpAll(score, first), second)
    decreases |second|
  {
    if second == [] {
      assert first + second == first;
    } else {
      var n := |second| - 1;
      assert (first + second)[..|first| + n] == first + second[..n];
      BumpAllConcat(score, first, second[..n]);
    }
  }

  /** The running totals P_0, P_1, .., P_n of the requests, P_0 = 0 included. */
  function Totals(deltas: seq<int>): (totals: seq<int>)
    ensures |totals| == |deltas| + 1
    ensures totals[|deltas|] == Sum(deltas)
  {
    if deltas == [] then [0]
    else Totals(deltas[..|deltas| - 1]) + [Sum(deltas)]
  }

  ghost predicate IsLowest(values: seq<int>, low: int) {
    low in values && forall v | v in values :: low <= v
  }

  /** xp = P_n - min(P_0 .. P_n). */
  ghost predicate Reflects(requests: seq<int>, xp: int) {
    IsLowest(Totals(requests), Sum(requests) - xp)
  }

  /** Reflection: flooring after every request leaves the running total measured from its
      lowest point. */
  lemma {:induction false} Reflection(deltas: seq<int>)
    ensures Reflects(deltas, BumpAll(NEW_SCORE, deltas).xp)
  {
    if deltas != [] {
      var init := deltas[..|deltas| - 1];
      Reflection(init);
      var before := Sum(init) - BumpAll(NEW_SCORE, init).xp;
      var low := Sum(deltas) - BumpAll(NEW_SCORE, deltas).xp;
      LowestOfMore(Totals(init), before, Sum(deltas), low);
    }
  }

  lemma LowestOfMore(values: seq<int>, before: int, last: int, low: int)
    requires IsLowest(values, before)
    requires low == if last < before then last else before
    ensures IsLowest(values + [last], low)
  {
    assert before in values + [last] && last in values + [last];
  }

  /** Every xp value a new score shows while the requests are applied, the start included. */
  function Trace(deltas: seq<int>): (trace: seq<int>)
    ensures |trace| == |deltas| + 1
  {
    if deltas == [] then [0]
    else Trace(deltas[..|deltas| - 1]) + [BumpAll(NEW_SCORE, deltas).xp]
  }

  /** High-water mark: the stored level is the level of the highest xp ever held, and of
      nothing else. */
  lemma {:induction false} LevelIsHighWater(deltas: seq<int>, peak: int)
    requires IsHighest(Trace(deltas), peak)
    ensures BumpAll(NEW_SCORE, deltas).level == LevelFromXp(peak)
  {
    if deltas != [] {
      var init := deltas[..|deltas| - 1];
      var before := Highest(Trace(init));
      HighestIsHighest(Trace(init));
      LevelIsHighWater(init, before);
      var last := BumpAll(NEW_SCORE, deltas).xp;
      LevelOfMax(before, last);
      HighestOfMore(Trace(init), before, last, peak);
    }
  }

  // ---------------------------------------------------------------- the highest of several values

  ghost predicate IsHighest(values: seq<int>, peak: int) {
    peak in values && forall v | v in values :: v <= peak
  }

  function Highest(values: seq<int>): int
    requires values != []
  {
    if |values| == 1 then values[0]
    else Max(Highest(values[..|values| - 1]), values[|values| - 1])
  }

  lemma {:induction false} HighestIsHighest(values: seq<int>)
    requires values != []
    ensures IsHighest(values, Highest(values))
  {
    if |values| > 1 {
      var init, last := values[..|values| - 1], values[|values| - 1];
      HighestIsHighest(init);
      assert values == init + [last];
    }
  }

  lemma HighestOfMore(values: seq<int>, before: int, last: int, peak: int)
    requires IsHighest(values, before)
    ensures IsHighest(values + [last], peak) <==> peak == Max(before, last)
  {
    assert before in values + [last] && last in values + [last];
  }
}
