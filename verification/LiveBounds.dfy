/**
 The live score bound of the viewer against the game it watches. The viewer counts every env_step event of the level, the
 harness only the agent's actions: the RESET that starts the game and every auto-RESET set the two apart, and the U that is
 shown can be less than what the next action earns.
 */
module LiveBounds {
  import opened Options
  import opened GamePlay
  import opened ViewerEvents
  import opened Rhae

  // ------------------------------------------------------------------------------------------------------- two counts

  /** The env_step event of a call that returned. */
  function EventOf(call: Call, step: nat): Event
    requires call.outcome.Stepped?
  {
    var levels := call.outcome.levels;
    EnvStep(
      Json.Number(step as real), if levels == 0 then Json.Falsy else Json.Number(levels as real), call.action != "")
  }

  /** The game starts with a recorded RESET. */
  const START := EnvStep(Json.Falsy, Json.Falsy, true)

  /** The viewer's statistics after the first RESET and the events of a log of calls. */
  ghost function Shown(start: Stats, calls: seq<Call>): Stats {
    if calls == [] then Update(start, START).stats
    else
      var s, last := Shown(start, calls[..|calls| - 1]), calls[|calls| - 1];
      if last.outcome.Stepped? then Update(s, EventOf(last, SteppedCalls(calls))).stats else s
  }

  /** The levels completed. */
  ghost function LevelsOf(calls: seq<Call>): int {
    if calls == [] then 0
    else
      var last := calls[|calls| - 1];
      if last.outcome.Stepped? then last.outcome.levels else LevelsOf(calls[..|calls| - 1])
  }

  /** The call is an action of the agent's that completes a level. */
  ghost predicate Completes(calls: seq<Call>)
    requires calls != []
  {
    var last := calls[|calls| - 1];
    !last.byHarness && last.outcome.Stepped? && last.outcome.levels > LevelsOf(calls[..|calls| - 1])
  }

  /** The agent's actions on the current level. */
  ghost function ActionsOf(calls: seq<Call>): nat {
    if calls == [] then 0
    else if Completes(calls) then 0
    else
      var last := calls[|calls| - 1];
      ActionsOf(calls[..|calls| - 1]) + if !last.byHarness && last.outcome.Stepped? then 1 else 0
  }

  /** The RESETs on the current level. */
  ghost function ResetsOf(calls: seq<Call>): nat {
    if calls == [] then 1
    else if Completes(calls) then 0
    else
      var last := calls[|calls| - 1];
      ResetsOf(calls[..|calls| - 1]) + if last.byHarness && last.outcome.Stepped? then 1 else 0
  }

  /** The action counts of the completed levels, in order. */
  ghost function CountsOf(calls: seq<Call>): seq<nat> {
    if calls == [] then []
    else
      var front := calls[..|calls| - 1];
      CountsOf(front) + if Completes(calls) then [ActionsOf(front) + 1] else []
  }

  /** The harness's own variables are functions of the log. */
  ghost predicate Counted(g: Game) {
    g.levelActions == ActionsOf(g.calls) && g.levels == LevelsOf(g.calls) && g.reported == CountsOf(g.calls)
  }

  lemma OneMoreCounted(calls: seq<Call>, call: Call)
    ensures
      var all := calls + [call];
      && LevelsOf(all) == (if call.outcome.Stepped? then call.outcome.levels else LevelsOf(calls))
      && ActionsOf(all) ==
           (if call.byHarness || call.outcome.Raised? then ActionsOf(calls)
            else if call.outcome.levels > LevelsOf(calls) then 0
            else ActionsOf(calls) + 1)
      && ResetsOf(all) ==
           (if call.outcome.Raised? then ResetsOf(calls)
            else if call.byHarness then ResetsOf(calls) + 1
            else if call.outcome.levels > LevelsOf(calls) then 0
            else ResetsOf(calls))
      && CountsOf(all) ==
           CountsOf(calls) +
           (if call.byHarness || call.outcome.Raised? || call.outcome.levels <= LevelsOf(calls) then []
            else [ActionsOf(calls) + 1])
  {
    assert (calls + [call])[..|calls|] == calls;
  }

  lemma {:induction false} PlayIsCounted(budget: int, env: Env, g: Game, actions: seq<string>)
    requires Counted(g)
    ensures Counted(Play(budget, env, g, actions).game)
    decreases |actions|
  {
    if actions != [] {
      hide LevelsOf, ActionsOf, CountsOf;
      var next := Act(env, g, actions[0]);
      OneMoreCounted(g.calls, Call(actions[0], false, env(|g.calls|)));
      OneMoreCounted(next.calls, Call("RESET", true, env(|next.calls|)));
      PlayIsCounted(budget, env, next, actions[1..]);
    }
  }

  /** Levels never fall, a RESET completes none, and actions have names. */
  ghost predicate Steady(calls: seq<Call>) {
    forall i :: 0 <= i < |calls| && calls[i].outcome.Stepped? ==>
      && calls[i].action != ""
      && LevelsOf(calls[..i]) <= calls[i].outcome.levels
      && (calls[i].byHarness ==> LevelsOf(calls[..i]) == calls[i].outcome.levels)
  }

  lemma EnvStepIs(s: Stats, e: Event)
    requires e.EnvStep? && IntFault(e.step) == NoFault == IntFault(e.levels)
    ensures
      var after := Update(s, e).stats;
      var level := IntOr(e.levels, s.level);
      && after.level == level
      && after.actionsThisLevel == if level > s.level then 0 else s.actionsThisLevel + if e.acted then 1 else 0
  {
    NoFaults(Faults(s, e));
  }

  lemma ShownStep(s: Stats, call: Call, step: nat)
    requires call.outcome.Stepped? && call.action != ""
    ensures
      var after := Update(s, EventOf(call, step)).stats;
      var levels := if call.outcome.levels == 0 then s.level else call.outcome.levels;
      after.level == levels && after.actionsThisLevel == if levels > s.level then 0 else s.actionsThisLevel + 1
  {
    hide Update;
    EnvStepIs(s, EventOf(call, step));
    var n := call.outcome.levels;
    assert Trunc(n as real) == n;
  }

  lemma ShownAtStart(start: Stats)
    requires start.level == 0 && start.actionsThisLevel == 0
    ensures Shown(start, []).level == 0 && Shown(start, []).actionsThisLevel == 1
  {
    hide Update;
    EnvStepIs(start, START);
  }

  lemma ShownOneMore(start: Stats, calls: seq<Call>, call: Call)
    ensures
      var s, step := Shown(start, calls), SteppedCalls(calls + [call]);
      Shown(start, calls + [call]) == if call.outcome.Stepped? then Update(s, EventOf(call, step)).stats else s
  {
    assert (calls + [call])[..|calls|] == calls;
  }

  lemma {:induction false} LevelsAreNonNegative(calls: seq<Call>)
    requires Steady(calls)
    ensures 0 <= LevelsOf(calls)
  {
    if calls != [] {
      var front := calls[..|calls| - 1];
      assert forall i :: 0 <= i < |front| ==> front[..i] == calls[..i];
      LevelsAreNonNegative(front);
    }
  }

  /** The viewer is ahead of the harness by exactly the RESETs of the level. */
  lemma {:induction false} ShownActionsAreAhead(start: Stats, calls: seq<Call>)
    requires Steady(calls) && start.level == 0 && start.actionsThisLevel == 0
    ensures Shown(start, calls).level == LevelsOf(calls)
    ensures Shown(start, calls).actionsThisLevel == ActionsOf(calls) + ResetsOf(calls)
  {
    hide Shown, LevelsOf, ActionsOf, ResetsOf, Update, EventOf;
    if calls == [] {
      ShownAtStart(start);
      NothingYet();
    } else {
      var front, last := calls[..|calls| - 1], calls[|calls| - 1];
      assert calls == front + [last];
      assert forall i :: 0 <= i < |front| ==> front[..i] == calls[..i];
      ShownActionsAreAhead(start, front);
      LevelsAreNonNegative(front);
      OneMoreCounted(front, last);
      ShownOneMore(start, front, last);
      if last.outcome.Stepped? { ShownStep(Shown(start, front), last, SteppedCalls(calls)); }
    }
  }

  lemma NothingYet()
    ensures LevelsOf([]) == ActionsOf([]) == 0 && ResetsOf([]) == 1
  {}

  // --------------------------------------------------------------------------------------------------------- the bound

  /** The run in which the next action solves the level and every later level is solved at exactly 100%. */
  function NextActionWins(baselines: seq<int>, past: seq<int>, actions: nat): seq<int>
    requires |past| < |baselines|
  {
    past + [actions + 1] + baselines[|past| + 1..]
  }

  lemma PerfectLevel(baseline: int)
    requires baseline > 0
    ensures LevelScore(baseline, baseline) == 1.0
  {
    var b := baseline as real;
    assert b / b == 1.0;
  }

  lemma NextActionScores(baselines: seq<int>, past: seq<int>, actions: nat, shown: nat, i: nat)
    requires |past| < |baselines| && i < |baselines|
    requires forall j :: |past| < j < |baselines| ==> baselines[j] > 0
    ensures
      var final := FinalScores(baselines, NextActionWins(baselines, past, actions), |baselines|);
      var optimistic := OptimisticScores(baselines, CompletedScores(baselines, past), |past|, shown);
      if i == |past|
      then
        && Bounded(ScoreAt(final, i)) == LevelScore(baselines[i], actions + 1)
        && Bounded(ScoreAt(optimistic, i)) == LevelScore(baselines[i], shown + 1)
      else Bounded(ScoreAt(final, i)) == Bounded(ScoreAt(optimistic, i))
  {
    var run := NextActionWins(baselines, past, actions);
    var final := FinalScores(baselines, run, |baselines|);
    var completed := CompletedScores(baselines, past);
    var optimistic := OptimisticScores(baselines, completed, |past|, shown);
    assert ScoreAt(final, i) == final[i] == LevelScore(baselines[i], run[i]);
    assert ScoreAt(optimistic, i) == optimistic[i];
    if i < |past| {
      assert run[i] == past[i] && completed[i] == LevelScore(baselines[i], past[i]);
      assert optimistic[i] == LowerScores(|baselines|, completed, |past|)[i];
      assert optimistic[i] == Bounded(LevelScore(baselines[i], past[i]));
    } else if i == |past| {
      assert MaxInt(0, shown) + 1 == shown + 1;
      assert optimistic[i] == LevelScore(baselines[|past|], MaxInt(0, shown) + 1);
      MoreActionsScoreLess(baselines[i], actions + 1, actions + 1);
      MoreActionsScoreLess(baselines[i], shown + 1, shown + 1);
    } else {
      assert optimistic[i] == 1.0 && run[i] == baselines[i];
      PerfectLevel(baselines[i]);
    }
  }

  /** When the viewer has counted more actions than were spent on the level, the U it shows is exceeded by solving the level
      with the very next action if and only if it is below 1 and the level scores less for the counted actions. */
  lemma ShownUpperFallsShortIff(baselines: seq<int>, past: seq<int>, actions: nat, shown: nat)
    requires |past| < |baselines| && actions <= shown
    requires forall i :: |past| < i < |baselines| ==> baselines[i] > 0
    ensures
      var levels := |baselines|;
      var upper := Upper(baselines, CompletedScores(baselines, past), |past|, shown, false);
      var here := baselines[|past|];
      EnvScore(FinalScores(baselines, NextActionWins(baselines, past, actions), levels), levels, levels) > upper <==>
      upper < 1.0 && LevelScore(here, actions + 1) > LevelScore(here, shown + 1)
  {
    var levels, k := |baselines|, |past|;
    var final := FinalScores(baselines, NextActionWins(baselines, past, actions), levels);
    var optimistic := OptimisticScores(baselines, CompletedScores(baselines, past), k, shown);
    forall i: nat | i < levels
      ensures Bounded(ScoreAt(optimistic, i)) <= Bounded(ScoreAt(final, i))
      ensures i != k ==> Bounded(ScoreAt(final, i)) == Bounded(ScoreAt(optimistic, i)) {
      NextActionScores(baselines, past, actions, shown, i);
      if i == k { MoreActionsScoreLess(baselines[k], actions + 1, shown + 1); }
    }
    NextActionScores(baselines, past, actions, shown, k);
    HigherAtOne(final, optimistic, levels, k);
  }

  /** U is reached when the next action solves the level and every later one is solved at exactly 100%. */
  lemma UpperIsReached(baselines: seq<int>, past: seq<int>, actions: nat)
    requires |past| < |baselines| && forall i :: |past| < i < |baselines| ==> baselines[i] > 0
    ensures
      var levels := |baselines|;
      Upper(baselines, CompletedScores(baselines, past), |past|, actions, false) ==
      EnvScore(FinalScores(baselines, NextActionWins(baselines, past, actions), levels), levels, levels)
  {
    var levels := |baselines|;
    var final := FinalScores(baselines, NextActionWins(baselines, past, actions), levels);
    var optimistic := OptimisticScores(baselines, CompletedScores(baselines, past), |past|, actions);
    forall i: nat | i < levels ensures Bounded(ScoreAt(optimistic, i)) == Bounded(ScoreAt(final, i)) {
      NextActionScores(baselines, past, actions, actions, i);
    }
    hide Bounded, ScoreAt;
    EnvScoreIsMonotone(final, optimistic, levels, levels, levels);
    EnvScoreIsMonotone(optimistic, final, levels, levels, levels);
  }

  /** Two runs that differ in one level's score. */
  lemma HigherAtOne(a: seq<real>, b: seq<real>, levels: nat, k: nat)
    requires k < levels
    requires forall i: nat :: i < levels ==> Bounded(ScoreAt(b, i)) <= Bounded(ScoreAt(a, i))
    requires forall i: nat :: i < levels && i != k ==> Bounded(ScoreAt(a, i)) == Bounded(ScoreAt(b, i))
    ensures
      EnvScore(a, levels, levels) > EnvScore(b, levels, levels) <==>
      EnvScore(b, levels, levels) < 1.0 && Bounded(ScoreAt(a, k)) > Bounded(ScoreAt(b, k))
  {
    hide Bounded, ScoreAt;
    FullFraction(levels);
    EnvScoreIsMonotone(b, a, levels, levels, levels);
    if Bounded(ScoreAt(a, k)) > Bounded(ScoreAt(b, k)) {
      SumIsStrictlyMonotone(b, a, levels, k);
      DivideStrictly(WeightedSum(b, levels), WeightedSum(a, levels), Weight(levels));
    } else {
      SumIsMonotone(a, b, levels, levels);
      DivideBy(WeightedSum(a, levels), WeightedSum(b, levels), Weight(levels));
    }
  }
}
