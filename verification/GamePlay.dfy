/**
 What the harness does with one action batch: it plays the actions one by one against the game, stops early on a
 level completion, WIN or GAME_OVER, recovers from GAME_OVER with an auto-RESET while the budget lasts, and accounts for
 every step. The game is an arbitrary oracle: `env(n)` is the outcome of the n-th call of `env.step`.
 */
module GamePlay {
  import opened Options

  /** `info.state`; every name other than WIN and GAME_OVER lets the game go on. */
  datatype Status = Playing | Win | GameOver

  datatype Outcome = Raised | Stepped(levels: int, status: Status)

  datatype Call = Call(action: string, byHarness: bool, outcome: Outcome)

  type Env = nat -> Outcome

  /** The harness's game variables, with the log of `env.step` calls and of the `ai_actions` it reported per level. */
  datatype Game = Game(
    calls: seq<Call>,
    envSteps: nat,
    levels: int,
    status: Status,
    levelActions: nat,
    lastAction: Option<string>,
    gameOvers: nat,
    resets: nat,
    reported: seq<nat>)

  /** Why a batch ended, with the number of queued actions that were skipped. */
  datatype Stop =
    | Completed
    | ActionRaised(skipped: nat)
    | Solved(skipped: nat)
    | Died(skipped: nat)
    | LevelUp(skipped: nat)

  datatype Played = Played(game: Game, executed: nat, stop: Stop)

  /** One action of the batch. */
  function Act(env: Env, g: Game, action: string): Game {
    var outcome := env(|g.calls|);
    var logged := g.(calls := g.calls + [Call(action, false, outcome)]);
    match outcome
    case Raised => logged
    case Stepped(levels, status) =>
      var stepped := logged.(
        envSteps := g.envSteps + 1, levels := levels, status := status, lastAction := Some(action));
      if levels > g.levels
      then stepped.(reported := g.reported + [g.levelActions + 1], levelActions := 0)
      else stepped.(levelActions := g.levelActions + 1)
  }

  /** GAME_OVER recovery; a negative budget is unlimited. */
  function AutoReset(budget: int, env: Env, g: Game): Game {
    if budget == 0 || (budget > 0 && g.gameOvers >= budget) then g
    else
      var outcome := env(|g.calls|);
      var logged := g.(calls := g.calls + [Call("RESET", true, outcome)], gameOvers := g.gameOvers + 1);
      match outcome
      case Raised => logged
      case Stepped(levels, status) =>
        logged.(envSteps := g.envSteps + 1, resets := g.resets + 1, levels := levels, status := status)
  }

  function Play(budget: int, env: Env, g: Game, actions: seq<string>): Played
    decreases |actions|
  {
    if actions == [] then Played(g, 0, Completed)
    else
      var next := Act(env, g, actions[0]);
      var left := |actions| - 1;
      if env(|g.calls|).Raised? then Played(next, 0, ActionRaised(left))
      else if next.status.Win? then Played(next, 1, Solved(left))
      else if next.status.GameOver? then Played(AutoReset(budget, env, next), 1, Died(left))
      else if next.levels > g.levels && left > 0 then Played(next, 1, LevelUp(left))
      else
        var rest := Play(budget, env, next, actions[1..]);
        rest.(executed := rest.executed + 1)
  }

  // -------------------------------------------------------------------------------------------------- accounting

  ghost function Sum(counts: seq<nat>): nat {
    if |counts| == 0 then 0 else Sum(counts[..|counts| - 1]) + counts[|counts| - 1]
  }

  ghost function SteppedCalls(calls: seq<Call>): nat {
    if |calls| == 0 then 0
    else SteppedCalls(calls[..|calls| - 1]) + (if calls[|calls| - 1].outcome.Stepped? then 1 else 0)
  }

  /** The state name the harness holds after a log of calls: that of the last call that returned. */
  ghost function StatusAfter(calls: seq<Call>): Status {
    if |calls| == 0 then Playing
    else
      var last := calls[|calls| - 1];
      if last.outcome.Stepped? then last.outcome.status else StatusAfter(calls[..|calls| - 1])
  }

  /** Every step is an action of a reported level, an action of the current level, or a successful auto-RESET. */
  ghost predicate StepsAddUp(reported: seq<nat>, levelActions: nat, resets: nat, envSteps: nat) {
    Sum(reported) + levelActions + resets == envSteps
  }

  /** The steps add up, and they are the calls that returned. */
  ghost predicate Accounted(g: Game) {
    && StepsAddUp(g.reported, g.levelActions, g.resets, g.envSteps)
    && SteppedCalls(g.calls) == g.envSteps
    && StatusAfter(g.calls) == g.status
  }

  ghost predicate WithinBudget(budget: int, g: Game) {
    && g.resets <= g.gameOvers
    && (budget >= 0 ==> g.gameOvers <= budget)
  }

  /** Agent actions are played only while the game is on; the harness RESETs only right after an agent action died. */
  ghost predicate CallAllowed(calls: seq<Call>, i: nat)
    requires i < |calls|
  {
    if calls[i].byHarness
    then
      && i > 0 && !calls[i - 1].byHarness
      && calls[i - 1].outcome.Stepped? && calls[i - 1].outcome.status.GameOver?
    else StatusAfter(calls[..i]).Playing?
  }

  ghost predicate CallsAllowed(calls: seq<Call>) {
    forall i :: 0 <= i < |calls| ==> CallAllowed(calls, i)
  }

  ghost predicate GameInv(budget: int, g: Game) {
    Accounted(g) && WithinBudget(budget, g) && CallsAllowed(g.calls)
  }

  lemma OneMoreCall(calls: seq<Call>, call: Call)
    requires CallsAllowed(calls)
    requires CallAllowed(calls + [call], |calls|)
    ensures
      var all := calls + [call];
      && CallsAllowed(all)
      && SteppedCalls(all) == SteppedCalls(calls) + (if call.outcome.Stepped? then 1 else 0)
      && StatusAfter(all) == if call.outcome.Stepped? then call.outcome.status else StatusAfter(calls)
  {
    var all := calls + [call];
    assert all[..|calls|] == calls;
    forall i | 0 <= i < |all| ensures CallAllowed(all, i) {
      if i < |calls| {
        assert CallAllowed(calls, i);
        assert all[..i] == calls[..i];
      }
    }
  }

  lemma SumAppend(counts: seq<nat>, count: nat)
    ensures Sum(counts + [count]) == Sum(counts) + count
  {
    assert (counts + [count])[..|counts|] == counts;
  }

  lemma ActKeepsInv(budget: int, env: Env, g: Game, action: string)
    requires GameInv(budget, g) && g.status.Playing?
    ensures GameInv(budget, Act(env, g, action))
  {
    hide Sum, SteppedCalls, StatusAfter, CallsAllowed;
    var call := Call(action, false, env(|g.calls|));
    assert (g.calls + [call])[..|g.calls|] == g.calls;
    OneMoreCall(g.calls, call);
    SumAppend(g.reported, g.levelActions + 1);
  }

  lemma AutoResetKeepsInv(budget: int, env: Env, g: Game)
    requires GameInv(budget, g) && g.calls != []
    requires
      var last := g.calls[|g.calls| - 1];
      !last.byHarness && last.outcome.Stepped? && last.outcome.status.GameOver?
    ensures GameInv(budget, AutoReset(budget, env, g))
  {
    var call := Call("RESET", true, env(|g.calls|));
    assert (g.calls + [call])[..|g.calls|] == g.calls;
    OneMoreCall(g.calls, call);
  }

  /** Step accounting, the reset budget and the safety of the call log survive every batch against every game. */
  lemma {:induction false} PlayKeepsInv(budget: int, env: Env, g: Game, actions: seq<string>)
    requires GameInv(budget, g) && g.status.Playing?
    ensures GameInv(budget, Play(budget, env, g, actions).game)
    decreases |actions|
  {
    if actions != [] {
      ActKeepsInv(budget, env, g, actions[0]);
      var next := Act(env, g, actions[0]);
      if env(|g.calls|).Stepped? {
        match next.status
        case Win =>
        case GameOver => AutoResetKeepsInv(budget, env, next);
        case Playing => PlayKeepsInv(budget, env, next, actions[1..]);
      }
    }
  }

  /** A batch costs at most one step per action plus one auto-RESET, and a batch whose first action does not raise costs
      at least one step. */
  lemma {:induction false} PlayCost(budget: int, env: Env, g: Game, actions: seq<string>)
    ensures
      var played := Play(budget, env, g, actions);
      && g.envSteps + played.executed <= played.game.envSteps <= g.envSteps + played.executed + 1
      && played.executed <= |actions|
      && (actions != [] && env(|g.calls|).Stepped? ==> played.executed >= 1)
      && (actions != [] && env(|g.calls|).Raised? ==> played.game.envSteps == g.envSteps)
    decreases |actions|
  {
    if actions != [] {
      var next := Act(env, g, actions[0]);
      if env(|g.calls|).Stepped? && next.status.Playing? {
        PlayCost(budget, env, next, actions[1..]);
      }
    }
  }

  /** A non-empty batch makes at least one call; if that call raises, nothing but the log changes. */
  lemma FirstCall(budget: int, env: Env, g: Game, actions: seq<string>)
    requires actions != []
    ensures
      var after := Play(budget, env, g, actions).game;
      && |g.calls| < |after.calls|
      && (env(|g.calls|).Raised? ==> after == g.(calls := after.calls))
  {
    PlayIsInOrder(budget, env, g, actions);
    if env(|g.calls|).Stepped? { PlayCost(budget, env, g, actions); }
  }

  /** The log is what the game answered, call by call. */
  ghost predicate Logged(env: Env, calls: seq<Call>) {
    forall i :: 0 <= i < |calls| ==> calls[i].outcome == env(i)
  }

  lemma {:induction false} PlayIsLogged(budget: int, env: Env, g: Game, actions: seq<string>)
    requires Logged(env, g.calls)
    ensures Logged(env, Play(budget, env, g, actions).game.calls)
    decreases |actions|
  {
    if actions != [] {
      PlayIsLogged(budget, env, Act(env, g, actions[0]), actions[1..]);
    }
  }

  /** How many of the game's first `n` answers are steps. */
  ghost function StepsAmong(env: Env, n: nat): nat {
    if n == 0 then 0 else StepsAmong(env, n - 1) + if env(n - 1).Stepped? then 1 else 0
  }

  lemma {:induction false} StepsAmongGrow(env: Env, m: nat, n: nat)
    requires m <= n
    ensures StepsAmong(env, m) <= StepsAmong(env, n)
  {
    if m < n { StepsAmongGrow(env, m, n - 1); }
  }

  lemma {:induction false} LoggedSteps(env: Env, calls: seq<Call>)
    requires Logged(env, calls)
    ensures SteppedCalls(calls) == StepsAmong(env, |calls|)
    ensures (forall n: nat :: env(n).Stepped? ==> env(n).status.Playing?) ==> StatusAfter(calls).Playing?
  {
    if calls != [] { LoggedSteps(env, calls[..|calls| - 1]); }
  }

  /** The last action that stepped is the one remembered for a force-advance, whoever chose it. */
  lemma {:induction false} LastActionIsLastPlayed(budget: int, env: Env, g: Game, actions: seq<string>)
    ensures
      var played := Play(budget, env, g, actions);
      && played.executed <= |actions|
      && played.game.lastAction == if played.executed == 0 then g.lastAction else Some(actions[played.executed - 1])
    decreases |actions|
  {
    if actions != [] {
      LastActionIsLastPlayed(budget, env, Act(env, g, actions[0]), actions[1..]);
    }
  }

  /** The calls a batch added to the log. */
  function Trace(g: Game, after: Game): seq<Call>
    requires |g.calls| <= |after.calls|
  {
    after.calls[|g.calls|..]
  }

  /** Play goes on after a call only if it returned, left the game on, and completed no level. */
  ghost predicate GoesOn(levels: int, call: Call) {
    call.outcome.Stepped? && call.outcome.status.Playing? && call.outcome.levels <= levels
  }

  /** Levels completed before call `k` of a trace that starts from `levels`. */
  ghost function LevelsBefore(levels: int, trace: seq<Call>, k: nat): int
    requires k <= |trace|
  {
    if k == 0 then levels
    else if trace[k - 1].outcome.Stepped? then trace[k - 1].outcome.levels
    else LevelsBefore(levels, trace, k - 1)
  }

  /** The calls are the first actions of the batch, in order; all returned, and play went on after each but the last. */
  ghost predicate PlayedInOrder(levels: int, actions: seq<string>, trace: seq<Call>, executed: nat) {
    && executed <= |actions| && executed <= |trace|
    && (forall k :: 0 <= k < executed ==>
          !trace[k].byHarness && trace[k].action == actions[k] && trace[k].outcome.Stepped?)
    && (forall k :: 0 <= k < executed - 1 ==> GoesOn(LevelsBefore(levels, trace, k), trace[k]))
  }

  lemma InOrderCons(levels: int, actions: seq<string>, call: Call, trace: seq<Call>, executed: nat)
    requires actions != [] && !call.byHarness && call.action == actions[0] && GoesOn(levels, call)
    requires PlayedInOrder(call.outcome.levels, actions[1..], trace, executed)
    ensures PlayedInOrder(levels, actions, [call] + trace, executed + 1)
  {
    var all := [call] + trace;
    forall k | 0 <= k < executed + 1
      ensures !all[k].byHarness && all[k].action == actions[k] && all[k].outcome.Stepped?
    {
      if k > 0 { assert all[k] == trace[k - 1] && actions[k] == actions[1..][k - 1]; }
    }
    forall k | 0 <= k < executed
      ensures GoesOn(LevelsBefore(levels, all, k), all[k])
    {
      if k > 0 {
        assert GoesOn(LevelsBefore(call.outcome.levels, trace, k - 1), trace[k - 1]);
        assert k > 1 ==> all[k - 1] == trace[k - 2];
      }
    }
  }

  /** A batch is played from its front, each action at most once, and never past a raise, an ended game or a completed
      level (unless the completing action was its last). */
  lemma {:induction false} PlayIsInOrder(budget: int, env: Env, g: Game, actions: seq<string>)
    ensures
      var played := Play(budget, env, g, actions);
      && g.calls <= played.game.calls
      && PlayedInOrder(g.levels, actions, Trace(g, played.game), played.executed)
      && played.executed <= |Trace(g, played.game)| <= played.executed + 1
    decreases |actions|
  {
    if actions != [] {
      var next := Act(env, g, actions[0]);
      var played := Play(budget, env, g, actions);
      if env(|g.calls|).Stepped? && next.status.Playing? && !(next.levels > g.levels && |actions| > 1) {
        PlayIsInOrder(budget, env, next, actions[1..]);
        var call := next.calls[|g.calls|];
        assert Trace(g, played.game) == [call] + Trace(next, played.game);
        if |actions| > 1 {
          InOrderCons(g.levels, actions, call, Trace(next, played.game), played.executed - 1);
        }
      }
    }
  }

  // ---------------------------------------------------------------------------------------------------- recovery

  /** What the log and the variables say after an agent action has died as call `n - 1`: with budget left, the harness has
      answered with a RESET and follows its outcome; without, nothing has happened since. */
  ghost predicate AnswersDeath(budget: int, env: Env, before: Game, died: Game, after: Game) {
    var n := |died.calls|;
    if budget < 0 || before.gameOvers < budget then
      && after.calls == died.calls + [Call("RESET", true, env(n))] && after.gameOvers == before.gameOvers + 1
      && (match env(n)
          case Raised =>
            && after.status == GameOver && after.levels == died.levels
            && after.envSteps == died.envSteps && after.resets == before.resets
          case Stepped(levels, status) =>
            && after.status == status && after.levels == levels
            && after.envSteps == died.envSteps + 1 && after.resets == before.resets + 1)
    else after == died
  }

  /** A batch whose first answer that stops it is GAME_OVER ends there, and the death is answered with a RESET exactly when
      the budget allows one more. */
  lemma {:induction false} DeathIsAnswered(budget: int, env: Env, g: Game, actions: seq<string>) returns (died: Game)
    requires
      var k := StopsAt(env, |g.calls|, g.levels, |actions|);
      k < |actions| && env(|g.calls| + k).Stepped? && env(|g.calls| + k).status.GameOver?
    ensures
      var k := StopsAt(env, |g.calls|, g.levels, |actions|);
      && g.calls <= died.calls && |died.calls| == |g.calls| + k + 1
      && died.calls[|g.calls| + k] == Call(actions[k], false, env(|g.calls| + k))
      && died.status.GameOver? && died.levels == env(|g.calls| + k).levels && died.envSteps == g.envSteps + k + 1
      && AnswersDeath(budget, env, g, died, Play(budget, env, g, actions).game)
    decreases |actions|
  {
    var next := Act(env, g, actions[0]);
    if LetsGoOn(env(|g.calls|), g.levels) {
      died := DeathIsAnswered(budget, env, next, actions[1..]);
      SameAfterAct(budget, env, g, next, died, actions);
    } else {
      died := next;
    }
  }

  lemma SameAfterAct(budget: int, env: Env, g: Game, next: Game, died: Game, actions: seq<string>)
    requires actions != [] && next == Act(env, g, actions[0]) && LetsGoOn(env(|g.calls|), g.levels)
    requires |actions| > 1
    ensures Play(budget, env, g, actions).game == Play(budget, env, next, actions[1..]).game
    ensures
      var after := Play(budget, env, g, actions).game;
      AnswersDeath(budget, env, next, died, after) ==> AnswersDeath(budget, env, g, died, after)
  {
    var after := Play(budget, env, g, actions).game;
    assert after == Play(budget, env, next, actions[1..]).game;
    assert next.gameOvers == g.gameOvers && next.resets == g.resets;
    hide Play, Act;
    AnswersAlike(budget, env, g, next, died, after);
  }

  lemma AnswersAlike(budget: int, env: Env, g: Game, next: Game, died: Game, after: Game)
    requires next.gameOvers == g.gameOvers && next.resets == g.resets
    ensures AnswersDeath(budget, env, next, died, after) == AnswersDeath(budget, env, g, died, after)
  {}

  /** How often the harness has played a RESET. */
  ghost function ResetCalls(calls: seq<Call>): nat {
    if |calls| == 0 then 0
    else ResetCalls(calls[..|calls| - 1]) + (if calls[|calls| - 1].byHarness then 1 else 0)
  }

  ghost predicate Dies(call: Call) {
    !call.byHarness && call.outcome.Stepped? && call.outcome.status.GameOver?
  }

  /** A death at call `i` has been followed by a RESET exactly if the RESETs before it had not used the budget up. */
  ghost predicate DeathAnswered(budget: int, calls: seq<Call>, i: nat)
    requires i < |calls|
  {
    Dies(calls[i]) ==>
      (budget < 0 || ResetCalls(calls[..i]) < budget <==> i + 1 < |calls| && calls[i + 1].byHarness)
  }

  /** Every death of the game has been answered so, and the harness has counted its RESETs. */
  ghost predicate Recovered(budget: int, g: Game) {
    g.gameOvers == ResetCalls(g.calls) && forall i :: 0 <= i < |g.calls| ==> DeathAnswered(budget, g.calls, i)
  }

  lemma ResetCallsOneMore(calls: seq<Call>, call: Call)
    ensures ResetCalls(calls + [call]) == ResetCalls(calls) + if call.byHarness then 1 else 0
  {
    assert (calls + [call])[..|calls|] == calls;
  }

  /** An agent call that does not die. */
  lemma OneMoreRecovered(budget: int, calls: seq<Call>, call: Call)
    requires forall i :: 0 <= i < |calls| ==> DeathAnswered(budget, calls, i)
    requires !call.byHarness
    ensures
      var all := calls + [call];
      && (forall i :: 0 <= i < |calls| ==> DeathAnswered(budget, all, i))
      && (!Dies(call) ==> DeathAnswered(budget, all, |calls|))
      && (Dies(call) && budget >= 0 && ResetCalls(calls) >= budget ==> DeathAnswered(budget, all, |calls|))
      && (Dies(call) && (budget < 0 || ResetCalls(calls) < budget) ==>
            forall outcome, i :: 0 <= i < |all| + 1 ==>
              DeathAnswered(budget, all + [Call("RESET", true, outcome)], i))
  {
    var all := calls + [call];
    assert all[..|calls|] == calls;
    forall i | 0 <= i < |calls| ensures DeathAnswered(budget, all, i) {
      assert DeathAnswered(budget, calls, i);
      assert all[..i] == calls[..i];
    }
    forall outcome, i | 0 <= i < |all| + 1 && Dies(call) && (budget < 0 || ResetCalls(calls) < budget)
      ensures DeathAnswered(budget, all + [Call("RESET", true, outcome)], i) {
      var reset := all + [Call("RESET", true, outcome)];
      if i < |calls| {
        assert DeathAnswered(budget, all, i);
        assert reset[..i] == all[..i];
      } else {
        assert reset[..|calls|] == calls;
      }
    }
  }

  /** An action that does not die keeps every death answered; one that does, with the recovery after it. */
  lemma ActRecovers(budget: int, env: Env, g: Game, action: string)
    requires Recovered(budget, g)
    ensures
      var next := Act(env, g, action);
      Recovered(budget, if Dies(next.calls[|g.calls|]) then AutoReset(budget, env, next) else next)
  {
    var call := Call(action, false, env(|g.calls|));
    var next := Act(env, g, action);
    assert next.calls == g.calls + [call];
    OneMoreRecovered(budget, g.calls, call);
    ResetCallsOneMore(g.calls, call);
    ResetCallsOneMore(next.calls, Call("RESET", true, env(|next.calls|)));
    hide ResetCalls, DeathAnswered;
  }

  lemma {:induction false} PlayRecovers(budget: int, env: Env, g: Game, actions: seq<string>)
    requires Recovered(budget, g)
    ensures Recovered(budget, Play(budget, env, g, actions).game)
    decreases |actions|
  {
    hide Recovered, AutoReset;
    if actions != [] {
      ActRecovers(budget, env, g, actions[0]);
      var next := Act(env, g, actions[0]);
      if !Dies(next.calls[|g.calls|]) { PlayRecovers(budget, env, next, actions[1..]); }
    }
  }

  /** The game is lost: the last call is a death that was not answered, or a RESET that raised or died. */
  ghost predicate Lost(calls: seq<Call>) {
    calls != [] &&
    var last := calls[|calls| - 1];
    Dies(last) || (last.byHarness && (last.outcome.Raised? || last.outcome.status.GameOver?))
  }

  lemma LostStatus(calls: seq<Call>)
    requires CallsAllowed(calls)
    ensures StatusAfter(calls).GameOver? <==> Lost(calls)
  {
    if calls != [] {
      var n := |calls| - 1;
      assert CallAllowed(calls, n);
      if calls[n].byHarness && calls[n].outcome.Raised? {
        var front := calls[..n];
        assert front[|front| - 1] == calls[n - 1];
        assert StatusAfter(front) == calls[n - 1].outcome.status;
      }
    }
  }

  /** The harness is left with GAME_OVER exactly when the game is lost, and an unanswered death means a spent budget. */
  lemma LostIff(budget: int, g: Game)
    requires GameInv(budget, g) && Recovered(budget, g)
    ensures g.status.GameOver? <==> Lost(g.calls)
    ensures Lost(g.calls) && Dies(g.calls[|g.calls| - 1]) ==> budget >= 0 && g.gameOvers >= budget
  {
    LostStatus(g.calls);
    if g.calls != [] {
      var n := |g.calls| - 1;
      assert DeathAnswered(budget, g.calls, n);
      assert g.calls == g.calls[..n] + [g.calls[n]];
      ResetCallsOneMore(g.calls[..n], g.calls[n]);
    }
  }

  // ------------------------------------------------------------------------------------------------------- notes

  /** The note of the next state line, reduced to the counts it names. */
  datatype Note = Silent | Truncated(executed: nat, requested: nat) | Other(skippedNamed: nat)

  /** `truncation_note` on the capped batch, replaced by the note of an early stop. Only a death and a level completion
      name the number of queued actions that were skipped. */
  function NoteOf(requested: nat, queued: nat, stop: Stop): Note {
    match stop
    case Completed => if requested <= queued then Silent else Truncated(queued, requested)
    case ActionRaised(_) => Other(0)
    case Solved(_) => Other(0)
    case Died(skipped) => Other(skipped)
    case LevelUp(skipped) => Other(skipped)
  }

  /** How many submitted actions the note says were not executed. */
  function Announced(note: Note): int {
    match note
    case Silent => 0
    case Truncated(executed, requested) => requested - executed
    case Other(skipped) => skipped
  }

  /** The batch goes on after an answer that steps, leaves the game on and completes no level. */
  predicate LetsGoOn(answer: Outcome, levels: int) {
    answer.Stepped? && answer.status.Playing? && answer.levels <= levels
  }

  /** How many of the `n` answers that start with `env(from)` let the batch go on, one after the other. */
  function StopsAt(env: Env, from: nat, levels: int, n: nat): (k: nat)
    ensures k <= n
    decreases n
  {
    if n > 0 && LetsGoOn(env(from), levels) then 1 + StopsAt(env, from + 1, env(from).levels, n - 1) else 0
  }

  /** Whether the note will be right about a batch of `n` actions out of `requested`, by the first answer of the game that
      does not let it go on. */
  predicate TailIsAnnounced(env: Env, from: nat, levels: int, n: nat, requested: nat) {
    var k := StopsAt(env, from, levels, n);
    k == n ||
    match env(from + k)
    case Raised => false
    case Stepped(_, Win) => k + 1 == n && requested == n
    case Stepped(_, GameOver) => requested == n
    case Stepped(_, Playing) => k + 1 == n || requested == n
  }

  /** "A dropped tail must be LOUD": the note counts exactly the actions that did not run if and only if all of the batch's
      actions step and the game goes on; or the first that does not let it go on completes a level or dies, and is the
      last of the batch (a level only) or the batch was not cut; or it is the last of an uncut batch and wins. The note of
      an early stop overwrites the truncation note. */
  lemma {:induction false} DroppedTailIsAnnouncedIff(
    budget: int, env: Env, g: Game, actions: seq<string>, requested: nat)
    requires |actions| <= requested
    ensures
      var played := Play(budget, env, g, actions);
      Announced(NoteOf(requested, |actions|, played.stop)) == requested - played.executed <==>
      TailIsAnnounced(env, |g.calls|, g.levels, |actions|, requested)
  {
    PlaySkips(budget, env, g, actions);
    PlayStops(budget, env, g, actions);
  }

  /** Where and why a batch stops. */
  lemma {:induction false} PlayStops(budget: int, env: Env, g: Game, actions: seq<string>)
    ensures
      var (n, from) := (|actions|, |g.calls|);
      var k := StopsAt(env, from, g.levels, n);
      var stop := Play(budget, env, g, actions).stop;
      if k == n then stop == Completed
      else
        match env(from + k)
        case Raised => stop == ActionRaised(n - k - 1)
        case Stepped(_, Win) => stop == Solved(n - k - 1)
        case Stepped(_, GameOver) => stop == Died(n - k - 1)
        case Stepped(_, Playing) => stop == if k + 1 < n then LevelUp(n - k - 1) else Completed
    decreases |actions|
  {
    if actions != [] {
      var next := Act(env, g, actions[0]);
      if LetsGoOn(env(|g.calls|), g.levels) {
        PlayStops(budget, env, next, actions[1..]);
      }
    }
  }

  /** For instance: a batch cut from 5 to 2 actions whose first action raises is announced as if nothing were missing. */
  lemma RaiseDropsTailSilently(budget: int, env: Env, g: Game, actions: seq<string>, requested: nat)
    requires 0 < |actions| <= requested && env(|g.calls|).Raised?
    ensures
      var played := Play(budget, env, g, actions);
      Announced(NoteOf(requested, |actions|, played.stop)) == 0 && played.executed == 0 < requested
  {
  }

  lemma {:induction false} PlaySkips(budget: int, env: Env, g: Game, actions: seq<string>)
    ensures
      var played := Play(budget, env, g, actions);
      match played.stop
      case Completed => played.executed == |actions|
      case ActionRaised(skipped) => played.executed + skipped + 1 == |actions|
      case _ => played.executed + played.stop.skipped == |actions|
    decreases |actions|
  {
    if actions != [] {
      PlaySkips(budget, env, Act(env, g, actions[0]), actions[1..]);
    }
  }
}
