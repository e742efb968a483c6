/**
 RHAE scoring: per-level efficiency scores, the capped weighted environment score, and the live bounds (L, U) of a run in
 progress. Scores are real numbers; rounding is not modelled.
 */
module Rhae {
  const LEVEL_SCORE_CAP: real := 1.15
  const PERFECT_LEVEL_SCORE: real := 1.0

  function MinReal(a: real, b: real): real {
    if a < b then a else b
  }

  function MaxReal(a: real, b: real): real {
    if a < b then b else a
  }

  /** `max(0, min(k, n))`. */
  function Clamp(k: int, n: nat): nat {
    if k < 0 then 0 else if k > n then n else k
  }

  function LevelScore(baseline: int, aiActions: int): real {
    if baseline <= 0 || aiActions <= 0 then 0.0
    else
      var efficiency := baseline as real / aiActions as real;
      MinReal(LEVEL_SCORE_CAP, efficiency * efficiency)
  }

  function Bounded(score: real): real {
    MinReal(LEVEL_SCORE_CAP, MaxReal(0.0, score))
  }

  /** 1 + 2 + ... + k. */
  function Weight(k: nat): real {
    (k * (k + 1)) as real / 2.0
  }

  function WeightedFraction(levels: nat, completed: int): real {
    if levels == 0 then 0.0 else Weight(Clamp(completed, levels)) / Weight(levels)
  }

  function ScoreAt(scores: seq<real>, i: nat): real {
    if i < |scores| then scores[i] else 0.0
  }

  /** Level i+1 weighs i+1; scores missing from the list are 0. */
  function WeightedSum(scores: seq<real>, completed: nat): real {
    if completed == 0 then 0.0
    else WeightedSum(scores, completed - 1) + completed as real * Bounded(ScoreAt(scores, completed - 1))
  }

  function EnvScore(scores: seq<real>, levels: nat, completed: int): real {
    if levels == 0 then 0.0
    else MinReal(WeightedFraction(levels, completed), WeightedSum(scores, Clamp(completed, levels)) / Weight(levels))
  }

  /** `rhae_score_from_level_scores`. */
  method ScoreFromLevelScores(levelScores: seq<real>, levels: nat, completedLevels: int) returns (score: real)
    ensures score == EnvScore(levelScores, levels, completedLevels)
  {
    if levels == 0 { return 0.0; }
    var completed := Clamp(completedLevels, levels);
    var weighted := 0.0;
    for i := 0 to completed
      invariant weighted == WeightedSum(levelScores, i)
    {
      weighted := weighted + (i + 1) as real * Bounded(ScoreAt(levelScores, i));
    }
    return MinReal(WeightedFraction(levels, completed), weighted / Weight(levels));
  }

  /** The score the run has for level i: only completed levels with a known action count have one. */
  function FinalScores(baselines: seq<int>, aiActions: seq<int>, completed: int): seq<real> {
    seq(|baselines|, i requires 0 <= i < |baselines| =>
      if i < Clamp(completed, |baselines|) && i < |aiActions| then LevelScore(baselines[i], aiActions[i]) else 0.0)
  }

  /** `rhae_environment_score`. */
  method EnvironmentScore(baselines: seq<int>, aiActions: seq<int>, levelsCompleted: int)
    returns (score: real, levelScores: seq<real>)
    ensures levelScores == FinalScores(baselines, aiActions, levelsCompleted)
    ensures score == EnvScore(levelScores, |baselines|, levelsCompleted)
  {
    var completed := Clamp(levelsCompleted, |baselines|);
    levelScores := [];
    for i := 0 to |baselines|
      invariant levelScores == FinalScores(baselines, aiActions, levelsCompleted)[..i]
    {
      levelScores := levelScores +
        [if i < completed && i < |aiActions| then LevelScore(baselines[i], aiActions[i]) else 0.0];
    }
    score := ScoreFromLevelScores(levelScores, |baselines|, completed);
  }

  // --------------------------------------------------------------------------------------------------------- bounds

  /** Known scores of the completed levels, 0 elsewhere. */
  function LowerScores(levels: nat, completedScores: seq<real>, completed: nat): seq<real> {
    seq(levels, i requires 0 <= i < levels =>
      if i < completed && i < |completedScores| then Bounded(completedScores[i]) else 0.0)
  }

  /** The current level solved by the next action, every later level at exactly 100%. */
  function OptimisticScores(baselines: seq<int>, completedScores: seq<real>, completed: nat, actionsThisLevel: int): seq<real>
    requires completed < |baselines|
  {
    seq(|baselines|, i requires 0 <= i < |baselines| =>
      if i < completed then LowerScores(|baselines|, completedScores, completed)[i]
      else if i == completed then LevelScore(baselines[completed], MaxInt(0, actionsThisLevel) + 1)
      else PERFECT_LEVEL_SCORE)
  }

  function MaxInt(a: int, b: int): int {
    if a < b then b else a
  }

  function Lower(levels: nat, completedScores: seq<real>, currentLevel: int): real {
    var completed := Clamp(currentLevel, levels);
    EnvScore(LowerScores(levels, completedScores, completed), levels, completed)
  }

  function Upper(baselines: seq<int>, completedScores: seq<real>, currentLevel: int, actionsThisLevel: int, done: bool): real {
    var levels := |baselines|;
    var completed := Clamp(currentLevel, levels);
    if levels == 0 || done || completed >= levels then Lower(levels, completedScores, currentLevel)
    else EnvScore(OptimisticScores(baselines, completedScores, completed, actionsThisLevel), levels, levels)
  }

  /** `rhae_bounds`. The final `max(lower, upper)` is redundant: it is `upper`. */
  method Bounds(baselines: seq<int>, completedScores: seq<real>, currentLevel: int, actionsThisLevel: int, done: bool)
    returns (lower: real, upper: real)
    ensures lower == Lower(|baselines|, completedScores, currentLevel)
    ensures upper == Upper(baselines, completedScores, currentLevel, actionsThisLevel, done)
  {
    var levels := |baselines|;
    if levels == 0 { return 0.0, 0.0; }
    var completed := Clamp(currentLevel, levels);
    var lowerScores := LowerScoreList(levels, completedScores, completed);
    lower := ScoreFromLevelScores(lowerScores, levels, completed);
    if done || completed >= levels { return lower, lower; }
    var optimistic := OptimisticScoreList(baselines, completedScores, completed, actionsThisLevel, lowerScores);
    upper := ScoreFromLevelScores(optimistic, levels, levels);
    BoundsAreOrdered(baselines, completedScores, currentLevel, actionsThisLevel, done);
    upper := MaxReal(lower, upper);
  }

  method LowerScoreList(levels: nat, completedScores: seq<real>, completed: nat) returns (scores: seq<real>)
    ensures scores == LowerScores(levels, completedScores, completed)
  {
    scores := seq(levels, _ => 0.0);
    for i := 0 to MinInt(completed, MinInt(levels, |completedScores|))
      invariant |scores| == levels
      invariant forall k :: 0 <= k < levels ==> scores[k] == if k < i then Bounded(completedScores[k]) else 0.0
    {
      scores := scores[i := Bounded(completedScores[i])];
    }
  }

  method OptimisticScoreList(
    baselines: seq<int>, completedScores: seq<real>, completed: nat, actionsThisLevel: int, lowerScores: seq<real>)
    returns (scores: seq<real>)
    requires completed < |baselines| && lowerScores == LowerScores(|baselines|, completedScores, completed)
    ensures scores == OptimisticScores(baselines, completedScores, completed, actionsThisLevel)
  {
    scores := lowerScores[completed := LevelScore(baselines[completed], MaxInt(0, actionsThisLevel) + 1)];
    for i := completed + 1 to |baselines|
      invariant |scores| == |baselines|
      invariant forall k :: 0 <= k < completed ==> scores[k] == lowerScores[k]
      invariant scores[completed] == LevelScore(baselines[completed], MaxInt(0, actionsThisLevel) + 1)
      invariant forall k :: completed < k < i ==> scores[k] == PERFECT_LEVEL_SCORE
    {
      scores := scores[i := PERFECT_LEVEL_SCORE];
    }
  }

  function MinInt(a: int, b: int): int {
    if a < b then a else b
  }

  lemma WeightIsMonotone(a: nat, b: nat)
    requires a <= b
    ensures 0.0 <= Weight(a) <= Weight(b)
    ensures b > 0 ==> Weight(b) > 0.0
    ensures b > 0 ==> 0.0 <= Weight(a) / Weight(b) <= 1.0
  {
    Product(a, b);
    var low, high := a * (a + 1), b * (b + 1);
    assert 0 <= low <= high && (b > 0 ==> high > 0);
    assert Weight(a) == low as real / 2.0 && Weight(b) == high as real / 2.0;
    if b > 0 { DivideBy(Weight(a), Weight(b), Weight(b)); }
  }

  lemma Product(a: nat, b: nat)
    requires a <= b
    ensures 0 <= a * (a + 1) <= b * (b + 1)
    ensures b > 0 ==> b * (b + 1) > 0
  {
    assert a * (a + 1) <= b * (a + 1) <= b * (b + 1);
  }

  lemma DivideBy(a: real, b: real, d: real)
    requires 0.0 < d && a <= b
    ensures a / d <= b / d
    ensures 0.0 <= a ==> 0.0 <= a / d
    ensures d / d == 1.0
  {
  }

  lemma TermsAreMonotone(a: seq<real>, b: seq<real>, n: nat)
    requires n > 0
    ensures 0.0 <= n as real * Bounded(ScoreAt(b, n - 1))
    ensures Bounded(ScoreAt(a, n - 1)) <= Bounded(ScoreAt(b, n - 1)) ==>
              n as real * Bounded(ScoreAt(a, n - 1)) <= n as real * Bounded(ScoreAt(b, n - 1))
  {
    var x, y := Bounded(ScoreAt(a, n - 1)), Bounded(ScoreAt(b, n - 1));
    assert 0.0 <= x && 0.0 <= y;
    Scale(n as real, 0.0, y);
    if x <= y { Scale(n as real, x, y); }
  }

  lemma {:induction false} SumIsMonotone(a: seq<real>, b: seq<real>, m: nat, n: nat)
    requires m <= n
    requires forall i: nat :: i < m ==> Bounded(ScoreAt(a, i)) <= Bounded(ScoreAt(b, i))
    ensures 0.0 <= WeightedSum(a, m) <= WeightedSum(b, n)
  {
    hide Bounded, ScoreAt;
    if n > 0 {
      TermsAreMonotone(a, b, n);
      if m == n {
        TermsAreMonotone(b, a, n);
        SumIsMonotone(a, b, m - 1, n - 1);
      } else {
        SumIsMonotone(a, b, m, n - 1);
      }
    }
  }

  lemma Scale(k: real, a: real, b: real)
    requires 0.0 <= k && 0.0 <= a <= b
    ensures 0.0 <= k * a <= k * b
  {
  }

  lemma EnvScoreIsMonotone(a: seq<real>, b: seq<real>, levels: nat, m: int, n: int)
    requires m <= n
    requires forall i: nat :: i < Clamp(m, levels) ==> Bounded(ScoreAt(a, i)) <= Bounded(ScoreAt(b, i))
    ensures 0.0 <= EnvScore(a, levels, m) <= EnvScore(b, levels, n) <= 1.0
    ensures EnvScore(a, levels, m) <= WeightedFraction(levels, m)
  {
    if levels > 0 {
      var c, d := Clamp(m, levels), Clamp(n, levels);
      SumIsMonotone(a, b, c, d);
      WeightIsMonotone(c, d);
      WeightIsMonotone(c, levels);
      WeightIsMonotone(d, levels);
      DivideBy(WeightedSum(a, c), WeightedSum(b, d), Weight(levels));
      DivideBy(Weight(c), Weight(d), Weight(levels));
    }
  }

  /** 0 <= L <= U <= 1, and L is at most the weighted fraction of completed levels. */
  lemma BoundsAreOrdered(
    baselines: seq<int>, completedScores: seq<real>, currentLevel: int, actionsThisLevel: int, done: bool)
    ensures
      var lower := Lower(|baselines|, completedScores, currentLevel);
      var upper := Upper(baselines, completedScores, currentLevel, actionsThisLevel, done);
      && 0.0 <= lower <= upper <= 1.0
      && lower <= WeightedFraction(|baselines|, currentLevel)
  {
    var levels := |baselines|;
    var completed := Clamp(currentLevel, levels);
    var scores := LowerScores(levels, completedScores, completed);
    EnvScoreIsMonotone(scores, scores, levels, completed, completed);
    if completed < levels {
      var optimistic := OptimisticScores(baselines, completedScores, completed, actionsThisLevel);
      EnvScoreIsMonotone(scores, optimistic, levels, completed, levels);
    }
  }

  /** Completing one more level, at any score, never lowers L. */
  lemma LowerNeverDecreases(levels: nat, before: seq<real>, after: seq<real>, currentLevel: int, nextLevel: int)
    requires currentLevel <= nextLevel
    requires forall i: nat :: i < Clamp(currentLevel, levels) ==> ScoreAt(before, i) == ScoreAt(after, i)
    ensures Lower(levels, before, currentLevel) <= Lower(levels, after, nextLevel)
  {
    var c, d := Clamp(currentLevel, levels), Clamp(nextLevel, levels);
    forall i: nat | i < Clamp(c, levels)
      ensures Bounded(ScoreAt(LowerScores(levels, before, c), i)) <= Bounded(ScoreAt(LowerScores(levels, after, d), i))
    {
      assert ScoreAt(before, i) == ScoreAt(after, i);
    }
    EnvScoreIsMonotone(LowerScores(levels, before, c), LowerScores(levels, after, d), levels, c, d);
  }

  lemma MoreActionsScoreLess(baseline: int, fewer: int, more: int)
    requires 0 < fewer <= more
    ensures 0.0 <= LevelScore(baseline, more) <= LevelScore(baseline, fewer)
  {
    if baseline > 0 {
      var b, f, m := baseline as real, fewer as real, more as real;
      QuotientShrinks(b, f, m);
      Square(b / m, b / f);
    }
  }

  lemma QuotientShrinks(b: real, f: real, m: real)
    requires 0.0 <= b && 0.0 < f <= m
    ensures 0.0 <= b / m <= b / f
  {
    OrderedFactors(b / m, m, b / f, f);
  }

  lemma SignOfFactor(low: real, m: real)
    requires 0.0 < m && 0.0 <= low * m
    ensures 0.0 <= low
  {
    if low < 0.0 { ScaleStrictly(m, low, 0.0); }
  }

  /** Of two equal products the one with the larger factor has the smaller cofactor. */
  lemma OrderedFactors(low: real, m: real, high: real, f: real)
    requires 0.0 < f <= m && 0.0 <= low * m
    requires low * m == high * f
    ensures 0.0 <= low <= high
  {
    SignOfFactor(low, m);
    Scale(low, f, m);
    var product := low * m;
    assert low * f <= product == high * f;
    if high < low { ScaleStrictly(f, high, low); }
  }

  lemma ScaleStrictly(k: real, a: real, b: real)
    requires 0.0 < k && a < b
    ensures a * k < b * k
  {
  }

  lemma Square(a: real, b: real)
    requires 0.0 <= a <= b
    ensures 0.0 <= a * a <= b * b
  {
    Scale(a, a, b);
    Scale(b, a, b);
  }

  /** U bounds every continuation that spends at least one more action on the current level and scores at most 100% on
      each later level, wherever the run ends. */
  lemma UpperBoundsContinuations(
    baselines: seq<int>, completedScores: seq<real>, currentLevel: int, actionsThisLevel: int,
    aiActions: seq<int>, finalLevel: int)
    requires 0 <= currentLevel < |baselines| && 0 <= actionsThisLevel
    requires
      var final := FinalScores(baselines, aiActions, finalLevel);
      && (forall i: nat :: i < currentLevel ==> final[i] <= Bounded(ScoreAt(completedScores, i)))
      && (currentLevel < |aiActions| ==> aiActions[currentLevel] >= actionsThisLevel + 1)
      && (forall i: nat :: currentLevel < i < |baselines| ==> final[i] <= 1.0)
    ensures
      EnvScore(FinalScores(baselines, aiActions, finalLevel), |baselines|, finalLevel)
      <= Upper(baselines, completedScores, currentLevel, actionsThisLevel, false)
  {
    var levels := |baselines|;
    var final := FinalScores(baselines, aiActions, finalLevel);
    var optimistic := OptimisticScores(baselines, completedScores, currentLevel, actionsThisLevel);
    forall i: nat | i < Clamp(finalLevel, levels)
      ensures Bounded(ScoreAt(final, i)) <= Bounded(ScoreAt(optimistic, i))
    {
      assert ScoreAt(final, i) == final[i] && ScoreAt(optimistic, i) == optimistic[i];
      if i < currentLevel {
        assert optimistic[i] == LowerScores(levels, completedScores, currentLevel)[i];
        assert final[i] <= Bounded(ScoreAt(completedScores, i));
      } else if i == currentLevel && i < |aiActions| {
        MoreActionsScoreLess(baselines[i], actionsThisLevel + 1, aiActions[i]);
        assert MaxInt(0, actionsThisLevel) == actionsThisLevel;
        assert optimistic[i] == LevelScore(baselines[currentLevel], actionsThisLevel + 1);
        assert final[i] == LevelScore(baselines[i], aiActions[i]);
      } else if i == currentLevel {
        MoreActionsScoreLess(baselines[i], actionsThisLevel + 1, actionsThisLevel + 1);
      } else {
        assert optimistic[i] == 1.0;
        assert final[i] <= 1.0;
      }
    }
    EnvScoreIsMonotone(final, optimistic, levels, MinInt(finalLevel, levels), levels);
  }

  // ------------------------------------------------------------------------------------------------- what a score is

  /** Squared efficiency, as long as that is at most 115%: the score times the square of the actions is the square of the
      baseline. */
  lemma LevelScoreIs(baseline: int, aiActions: int)
    ensures baseline <= 0 || aiActions <= 0 ==> LevelScore(baseline, aiActions) == 0.0
    ensures
      var (b, a) := (baseline as real, aiActions as real);
      baseline > 0 && aiActions > 0 ==>
        LevelScore(baseline, aiActions) <= LEVEL_SCORE_CAP
        && if b * b <= LEVEL_SCORE_CAP * (a * a) then LevelScore(baseline, aiActions) * (a * a) == b * b
           else LevelScore(baseline, aiActions) == LEVEL_SCORE_CAP
  {
    if baseline > 0 && aiActions > 0 {
      var b, a := baseline as real, aiActions as real;
      var e := b / a;
      SquaredQuotient(b, a, e);
      if LEVEL_SCORE_CAP < e * e { ScaleStrictly(a * a, LEVEL_SCORE_CAP, e * e); }
      if e * e <= LEVEL_SCORE_CAP { ScaleUp(a * a, e * e, LEVEL_SCORE_CAP); }
    }
  }

  lemma SquaredQuotient(b: real, a: real, e: real)
    requires a > 0.0 && e == b / a
    ensures e * e * (a * a) == b * b && a * a > 0.0
  {
    assert e * a == b;
    assert e * e * (a * a) == (e * a) * (e * a);
  }

  lemma ScaleUp(k: real, a: real, b: real)
    requires 0.0 <= k && a <= b
    ensures a * k <= b * k
  {}

  /** Level k + 1 weighs k + 1. */
  lemma {:induction false} OneLevelWeighs(scores: seq<real>, n: nat, k: nat, x: real)
    requires k < n && k < |scores|
    ensures WeightedSum(scores[k := x], n) ==
            WeightedSum(scores, n) + (k + 1) as real * (Bounded(x) - Bounded(scores[k]))
  {
    hide Bounded;
    var changed := scores[k := x];
    if k == n - 1 {
      SameSum(scores, changed, n - 1);
      Difference(n as real, Bounded(x), Bounded(scores[k]));
    } else {
      OneLevelWeighs(scores, n - 1, k, x);
      assert ScoreAt(changed, n - 1) == ScoreAt(scores, n - 1);
    }
  }

  lemma Difference(k: real, a: real, b: real)
    ensures k * a == k * b + k * (a - b)
  {}

  lemma {:induction false} SameSum(a: seq<real>, b: seq<real>, n: nat)
    requires forall i: nat :: i < n ==> ScoreAt(a, i) == ScoreAt(b, i)
    ensures WeightedSum(a, n) == WeightedSum(b, n)
  {
    if n > 0 { SameSum(a, b, n - 1); }
  }

  /** Perfect scores on the first n levels, and nothing else, score the weighted fraction they complete. */
  lemma {:induction false} PerfectLevelsSum(scores: seq<real>, n: nat)
    requires forall i: nat :: i < n ==> ScoreAt(scores, i) == PERFECT_LEVEL_SCORE
    ensures WeightedSum(scores, n) == Weight(n)
  {
    if n > 0 {
      PerfectLevelsSum(scores, n - 1);
      assert Bounded(ScoreAt(scores, n - 1)) == 1.0;
      hide Weight, Bounded, ScoreAt;
      WeightStep(n);
    } else {
      assert Weight(0) == 0.0;
    }
  }

  lemma WeightStep(n: nat)
    requires n > 0
    ensures Weight(n) == Weight(n - 1) + n as real * 1.0
  {
    assert n * (n + 1) == (n - 1) * n + 2 * n;
  }

  // ------------------------------------------------------------------------------------- when U bounds every continuation

  /** The scores of the levels that have been completed, from their action counts. */
  function CompletedScores(baselines: seq<int>, past: seq<int>): seq<real>
    requires |past| <= |baselines|
  {
    seq(|past|, i requires 0 <= i < |past| => LevelScore(baselines[i], past[i]))
  }

  /** L is what the run scores if it stops now. */
  lemma LowerIsReached(baselines: seq<int>, past: seq<int>)
    requires |past| <= |baselines|
    ensures Lower(|baselines|, CompletedScores(baselines, past), |past|) ==
            EnvScore(FinalScores(baselines, past, |past|), |baselines|, |past|)
  {
    var levels, completed := |baselines|, CompletedScores(baselines, past);
    var lower, final := LowerScores(levels, completed, |past|), FinalScores(baselines, past, |past|);
    forall i: nat | i < |past| ensures Bounded(ScoreAt(lower, i)) == Bounded(ScoreAt(final, i)) {
      assert ScoreAt(lower, i) == lower[i] == Bounded(completed[i]);
      assert ScoreAt(final, i) == final[i] == LevelScore(baselines[i], past[i]);
    }
    EnvScoreIsMonotone(lower, final, levels, |past|, |past|);
    EnvScoreIsMonotone(final, lower, levels, |past|, |past|);
  }

  /** A run that goes on from `past` and `actionsThisLevel` actions into the next level, with at least one more of them. */
  ghost predicate Continues(past: seq<int>, actionsThisLevel: int, aiActions: seq<int>) {
    && past <= aiActions
    && (|past| < |aiActions| ==> aiActions[|past|] >= actionsThisLevel + 1)
  }

  /** U is not exceeded, whatever the agent still does and wherever the run ends. */
  ghost predicate BoundsEveryContinuation(baselines: seq<int>, past: seq<int>, actionsThisLevel: int)
    requires |past| < |baselines|
  {
    forall aiActions: seq<int>, finalLevel: int :: Continues(past, actionsThisLevel, aiActions) ==>
      EnvScore(FinalScores(baselines, aiActions, finalLevel), |baselines|, finalLevel)
      <= Upper(baselines, CompletedScores(baselines, past), |past|, actionsThisLevel, false)
  }

  /** The best that can still be done: one more action here, one action on every later level. */
  function BestActions(baselines: seq<int>, past: seq<int>, actionsThisLevel: int): seq<int>
    requires |past| < |baselines|
  {
    past + [actionsThisLevel + 1] + seq(|baselines| - |past| - 1, _ => 1)
  }

  /** A level of one action scores at most 100%, one of more actions can score 115%. */
  lemma BestLevelScore(baseline: int, aiActions: int)
    ensures LevelScore(baseline, aiActions) <= LevelScore(baseline, 1)
    ensures LevelScore(baseline, 1) == if baseline <= 0 then 0.0 else if baseline == 1 then 1.0 else LEVEL_SCORE_CAP
  {
    if aiActions >= 1 { MoreActionsScoreLess(baseline, 1, aiActions); }
    if baseline >= 2 {
      var b := baseline as real;
      assert b / 1.0 == b;
      Scale(b, 2.0, b);
      Scale(2.0, 2.0, b);
    }
  }

  lemma BestIsBest(baselines: seq<int>, past: seq<int>, actionsThisLevel: int, aiActions: seq<int>, finalLevel: int)
    requires |past| < |baselines| && 0 <= actionsThisLevel && Continues(past, actionsThisLevel, aiActions)
    ensures
      var levels := |baselines|;
      EnvScore(FinalScores(baselines, aiActions, finalLevel), levels, finalLevel)
      <= EnvScore(FinalScores(baselines, BestActions(baselines, past, actionsThisLevel), levels), levels, levels)
  {
    var levels, here := |baselines|, |past|;
    var best := BestActions(baselines, past, actionsThisLevel);
    var final, top := FinalScores(baselines, aiActions, finalLevel), FinalScores(baselines, best, levels);
    forall i: nat | i < Clamp(finalLevel, levels) ensures Bounded(ScoreAt(final, i)) <= Bounded(ScoreAt(top, i)) {
      assert ScoreAt(final, i) == final[i] && ScoreAt(top, i) == top[i] == LevelScore(baselines[i], best[i]);
      if i < here {
        assert aiActions[i] == past[i] == best[i];
      } else if i == here && i < |aiActions| {
        MoreActionsScoreLess(baselines[i], actionsThisLevel + 1, aiActions[i]);
      } else if i < |aiActions| {
        BestLevelScore(baselines[i], aiActions[i]);
      }
    }
    EnvScoreIsMonotone(final, top, levels, MinInt(finalLevel, levels), levels);
  }

  /** For any baselines: U bounds every continuation if and only if it bounds the best one. */
  lemma UpperBoundsIffBest(baselines: seq<int>, past: seq<int>, actionsThisLevel: int)
    requires |past| < |baselines| && 0 <= actionsThisLevel
    ensures
      var levels := |baselines|;
      BoundsEveryContinuation(baselines, past, actionsThisLevel) <==>
      EnvScore(FinalScores(baselines, BestActions(baselines, past, actionsThisLevel), levels), levels, levels)
      <= Upper(baselines, CompletedScores(baselines, past), |past|, actionsThisLevel, false)
  {
    hide EnvScore, Upper, FinalScores;
    var best := BestActions(baselines, past, actionsThisLevel);
    assert Continues(past, actionsThisLevel, best);
    forall aiActions, finalLevel | Continues(past, actionsThisLevel, aiActions)
      ensures EnvScore(FinalScores(baselines, aiActions, finalLevel), |baselines|, finalLevel)
              <= EnvScore(FinalScores(baselines, best, |baselines|), |baselines|, |baselines|) {
      BestIsBest(baselines, past, actionsThisLevel, aiActions, finalLevel);
    }
  }

  lemma {:induction false} SumIsStrictlyMonotone(a: seq<real>, b: seq<real>, n: nat, k: nat)
    requires k < n && Bounded(ScoreAt(a, k)) < Bounded(ScoreAt(b, k))
    requires forall i: nat :: i < n ==> Bounded(ScoreAt(a, i)) <= Bounded(ScoreAt(b, i))
    ensures WeightedSum(a, n) < WeightedSum(b, n)
  {
    hide Bounded, ScoreAt;
    var x, y := Bounded(ScoreAt(a, n - 1)), Bounded(ScoreAt(b, n - 1));
    if k == n - 1 {
      SumIsMonotone(a, b, n - 1, n - 1);
      ScaleStrictly(n as real, x, y);
      Commute(n as real, x);
      Commute(n as real, y);
    } else {
      SumIsStrictlyMonotone(a, b, n - 1, k);
      TermsAreMonotone(a, b, n);
    }
  }

  lemma Commute(a: real, b: real)
    ensures a * b == b * a
  {}

  lemma FullFraction(levels: nat)
    requires levels > 0
    ensures WeightedFraction(levels, levels) == 1.0 && Weight(levels) > 0.0
  {
    WeightIsMonotone(levels, levels);
    DivideBy(Weight(levels), Weight(levels), Weight(levels));
  }

  lemma DivideStrictly(a: real, b: real, d: real)
    requires 0.0 < d && a < b
    ensures a / d < b / d
  {
  }

  /** Where every later level has a positive baseline: U bounds every continuation if and only if it is 1 already, or no
      later level can score above 100% because its baseline is a single action. */
  lemma UpperBoundsEveryContinuationIff(baselines: seq<int>, past: seq<int>, actionsThisLevel: int)
    requires |past| < |baselines| && 0 <= actionsThisLevel
    requires forall i :: |past| < i < |baselines| ==> baselines[i] > 0
    ensures
      BoundsEveryContinuation(baselines, past, actionsThisLevel) <==>
      || Upper(baselines, CompletedScores(baselines, past), |past|, actionsThisLevel, false) == 1.0
      || forall i :: |past| < i < |baselines| ==> baselines[i] == 1
  {
    var levels, here := |baselines|, |past|;
    var completed := CompletedScores(baselines, past);
    var best := FinalScores(baselines, BestActions(baselines, past, actionsThisLevel), levels);
    var optimistic := OptimisticScores(baselines, completed, here, actionsThisLevel);
    UpperBoundsIffBest(baselines, past, actionsThisLevel);
    FullFraction(levels);
    forall i: nat | i < levels ensures BestAgainstOptimistic(baselines, past, best, optimistic, i) {
      BestOrOptimistic(baselines, past, actionsThisLevel, i);
    }
    BestExceedsIff(baselines, past, best, optimistic);
  }

  ghost predicate BestAgainstOptimistic(
    baselines: seq<int>, past: seq<int>, best: seq<real>, optimistic: seq<real>, i: nat)
    requires i < |baselines|
  {
    var x, y := Bounded(ScoreAt(best, i)), Bounded(ScoreAt(optimistic, i));
    if i <= |past| || baselines[i] == 1 then x == y else y < x
  }

  lemma BestOrOptimistic(baselines: seq<int>, past: seq<int>, actionsThisLevel: int, i: nat)
    requires |past| < |baselines| && 0 <= actionsThisLevel && i < |baselines|
    requires i > |past| ==> baselines[i] > 0
    ensures
      var best := FinalScores(baselines, BestActions(baselines, past, actionsThisLevel), |baselines|);
      var optimistic := OptimisticScores(baselines, CompletedScores(baselines, past), |past|, actionsThisLevel);
      BestAgainstOptimistic(baselines, past, best, optimistic, i)
  {
    var best := FinalScores(baselines, BestActions(baselines, past, actionsThisLevel), |baselines|);
    var optimistic := OptimisticScores(baselines, CompletedScores(baselines, past), |past|, actionsThisLevel);
    var actions := BestActions(baselines, past, actionsThisLevel);
    assert ScoreAt(best, i) == best[i] == LevelScore(baselines[i], actions[i]);
    assert ScoreAt(optimistic, i) == optimistic[i];
    if i < |past| {
      var completed := CompletedScores(baselines, past);
      assert actions[i] == past[i] && completed[i] == LevelScore(baselines[i], past[i]);
      assert optimistic[i] == LowerScores(|baselines|, completed, |past|)[i];
      assert optimistic[i] == Bounded(LevelScore(baselines[i], past[i]));
    } else if i == |past| {
      assert MaxInt(0, actionsThisLevel) + 1 == actionsThisLevel + 1 == actions[i];
      assert optimistic[i] == LevelScore(baselines[|past|], MaxInt(0, actionsThisLevel) + 1);
    } else {
      assert optimistic[i] == 1.0 && actions[i] == 1;
      BestLevelScore(baselines[i], 1);
    }
  }

  lemma BestExceedsIff(baselines: seq<int>, past: seq<int>, best: seq<real>, optimistic: seq<real>)
    requires |past| < |baselines| && |best| == |optimistic| == |baselines|
    requires forall i: nat :: i < |baselines| ==> BestAgainstOptimistic(baselines, past, best, optimistic, i)
    ensures
      var levels := |baselines|;
      EnvScore(best, levels, levels) <= EnvScore(optimistic, levels, levels) <==>
      || EnvScore(optimistic, levels, levels) == 1.0
      || forall i :: |past| < i < levels ==> baselines[i] == 1
  {
    var levels := |baselines|;
    hide Bounded, ScoreAt;
    FullFraction(levels);
    forall i: nat | i < levels ensures Bounded(ScoreAt(optimistic, i)) <= Bounded(ScoreAt(best, i)) {
      assert BestAgainstOptimistic(baselines, past, best, optimistic, i);
    }
    EnvScoreIsMonotone(optimistic, best, levels, levels, levels);
    if k: nat :| |past| < k < levels && baselines[k] != 1 {
      assert BestAgainstOptimistic(baselines, past, best, optimistic, k);
      SumIsStrictlyMonotone(optimistic, best, levels, k);
      DivideStrictly(WeightedSum(optimistic, levels), WeightedSum(best, levels), Weight(levels));
    } else {
      forall i: nat | i < levels ensures Bounded(ScoreAt(best, i)) <= Bounded(ScoreAt(optimistic, i)) {
        assert BestAgainstOptimistic(baselines, past, best, optimistic, i);
        assert i <= |past| || baselines[i] == 1;
      }
      SumIsMonotone(best, optimistic, levels, levels);
      DivideBy(WeightedSum(best, levels), WeightedSum(optimistic, levels), Weight(levels));
    }
  }

  /** For instance, 115% on a later level of 10 actions ends a run above its earlier U. */
  lemma UpperCanBeExceeded()
    ensures
      var baselines, aiActions := [10, 10], [100, 1];
      EnvScore(FinalScores(baselines, aiActions, 2), 2, 2) > Upper(baselines, [], 0, 99, false)
  {
    var baselines, aiActions := [10, 10], [100, 1];
    var final := FinalScores(baselines, aiActions, 2);
    var optimistic := OptimisticScores(baselines, [], 0, 99);
    var tenth := 10 as real / 100 as real;
    assert tenth == 0.1 && tenth * tenth == 0.01;
    assert final[0] == LevelScore(10, 100) == 0.01;
    assert optimistic[0] == LevelScore(baselines[0], MaxInt(0, 99) + 1);
    assert MaxInt(0, 99) + 1 == 100 && baselines[0] == 10;
    assert final[1] == 1.15 && optimistic[1] == 1.0;
    assert WeightedSum(final, 1) == 0.01 && WeightedSum(final, 2) == 2.31;
    assert WeightedSum(optimistic, 1) == 0.01 && WeightedSum(optimistic, 2) == 2.01;
    assert Weight(2) == 3.0;
  }
}
