/**
 The harness's main loop: it climbs the silence ladder, takes or invents a batch, plays it, and publishes the next
 state, until WIN, an unrecovered GAME_OVER or a cap. Every round is a sequence of steps of the turn protocol, with
 arbitrary agent steps in between, so everything proved of protocol runs holds of this loop.
 */
module HarnessLoop {
  import opened Options
  import opened TurnProtocol
  import opened TurnSafety
  import opened TurnBacklog
  import opened GamePlay

  /** `allowedGameOvers` < 0 is unlimited; `maxActionsPerTurn` <= 0 is unlimited. */
  datatype Limits = Limits(maxTurns: Option<nat>, maxEnvSteps: int, maxActionsPerTurn: int, allowedGameOvers: int)

  datatype Termination = Won | LostGame | MaxTurns | MaxEnvSteps

  /** `apply_action_cap`. */
  function ApplyActionCap(actions: seq<string>, cap: int): (kept: seq<string>)
    ensures kept <= actions
    ensures |kept| == if 0 < cap < |actions| then cap else |actions|
  {
    if cap <= 0 || |actions| <= cap then actions else actions[..cap]
  }

  /** How many actions the agent asked for: the batch may already have been cut when it was submitted. */
  function Requested(batch: Batch): (n: nat)
    ensures n >= |batch.actions| && (batch.truncatedFrom.Some? ==> n >= batch.truncatedFrom.value)
    ensures n == |batch.actions| || batch.truncatedFrom == Some(n)
  {
    if batch.truncatedFrom.Some? && batch.truncatedFrom.value > |batch.actions|
    then batch.truncatedFrom.value
    else |batch.actions|
  }

  /** For a batch that came through `submit_actions` that is how many the agent submitted. */
  lemma RequestedIsSubmitted(batch: Batch, requested: seq<string>, cap: int)
    requires IsCutOf(batch, requested, cap)
    ensures Requested(batch) == |requested|
  {
  }

  function Larger(a: int, b: int): int {
    if a < b then b else a
  }

  /** The force-advance action. Before the first action it is never RESET unless the game offers nothing else. */
  method DefaultAction(available: seq<string>, lastAction: Option<string>) returns (action: string)
    ensures "UNDO" in available ==> action == "UNDO"
    ensures "UNDO" !in available && lastAction.Some? && lastAction.value != "" ==> action == lastAction.value
    ensures "UNDO" !in available && (lastAction.None? || lastAction.value == "") ==>
              if (forall a :: a in available ==> a == "RESET")
              then action == "RESET"
              else
                || (action == "CLICK 32 32" && "CLICK" in available)
                || (action in available && action != "RESET" && action != "CLICK")
  {
    if "UNDO" in available { return "UNDO"; }
    if lastAction.Some? && lastAction.value != "" { return lastAction.value; }
    var choices := [];
    for i := 0 to |available|
      invariant forall a :: a in choices <==> a in available[..i] && a != "RESET" && a != "UNDO"
    {
      if available[i] != "RESET" && available[i] != "UNDO" {
        choices := choices + [available[i]];
      }
    }
    assert available[..|available|] == available;
    if choices != [] {
      var k :| 0 <= k < |choices|;
      action := choices[k];
      assert action in choices;
      if action == "CLICK" { action := "CLICK 32 32"; }
      return;
    }
    assert forall i :: 0 <= i < |available| && available[i] != "RESET" ==> available[i] in choices;
    assert forall i :: 0 <= i < |available| ==> available[i] == "RESET";
    return if available != [] then available[0] else "RESET";
  }

  lemma FreshStart(budget: int, g: Game)
    requires g.calls == [] && g.reported == [] && g.envSteps == g.levelActions == g.resets == g.gameOvers == 0
    requires g.status.Playing?
    ensures GameInv(budget, g) && Recovered(budget, g)
  {
  }

  /** A round: what was played, how much of it stepped, and whether the harness had invented it. */
  datatype RoundRecord = RoundRecord(forced: bool, actions: seq<string>, executed: nat)

  /** The last action that stepped. */
  ghost function LastPlayed(rounds: seq<RoundRecord>): Option<string> {
    if rounds == [] then None
    else
      var last := rounds[|rounds| - 1];
      if 0 < last.executed <= |last.actions| then Some(last.actions[last.executed - 1])
      else LastPlayed(rounds[..|rounds| - 1])
  }

  lemma LastPlayedOneMore(rounds: seq<RoundRecord>, round: RoundRecord)
    ensures LastPlayed(rounds + [round]) ==
            if 0 < round.executed <= |round.actions| then Some(round.actions[round.executed - 1]) else LastPlayed(rounds)
  {
    assert (rounds + [round])[..|rounds|] == rounds;
  }

  /** The agent chose it. */
  ghost predicate LastIsAgents(rounds: seq<RoundRecord>) {
    rounds != [] &&
    var last := rounds[|rounds| - 1];
    if 0 < last.executed <= |last.actions| then !last.forced else LastIsAgents(rounds[..|rounds| - 1])
  }

  ghost predicate Steps(round: RoundRecord) {
    0 < round.executed <= |round.actions|
  }

  /** Round `k` stepped with a batch of the agent's, and no forced action has stepped since. */
  ghost predicate AgentSteppedLast(rounds: seq<RoundRecord>, k: nat) {
    && k < |rounds| && Steps(rounds[k]) && !rounds[k].forced
    && forall j :: k < j < |rounds| && rounds[j].forced ==> !Steps(rounds[j])
  }

  /** The action kept for a force-advance is the agent's own if and only if some batch of the agent's has stepped since the
      last forced step. */
  lemma {:induction false} LastIsAgentsIff(rounds: seq<RoundRecord>)
    ensures LastIsAgents(rounds) <==> exists k: nat :: AgentSteppedLast(rounds, k)
  {
    if rounds != [] {
      var front, last := rounds[..|rounds| - 1], rounds[|rounds| - 1];
      LastIsAgentsIff(front);
      if Steps(last) && !last.forced {
        assert AgentSteppedLast(rounds, |rounds| - 1);
      }
      forall k: nat ensures !Steps(last) && k < |front| ==> (AgentSteppedLast(front, k) <==> AgentSteppedLast(rounds, k)) {
        assert forall j :: 0 <= j < |front| ==> front[j] == rounds[j];
      }
    }
  }

  class Harness {
    const limits: Limits
    const protocol: TurnProtocol.Config
    const available: seq<string>
    const env: Env

    /** The shared logs and both actors' control points, and the run that led there. */
    var ipc: State
    ghost var run: seq<Step>

    var calls: seq<Call>
    var envSteps: nat
    var levelsCompleted: int
    var finalState: Status
    var levelActionCount: nat
    var lastAction: Option<string>
    var gameOvers: nat
    var resets: nat
    var reported: seq<nat>

    var termination: Option<Termination>
    var note: Note
    ghost var stalled: nat
    ghost var rounds: seq<RoundRecord>

    ghost function View(): Game
      reads this
    {
      Game(calls, envSteps, levelsCompleted, finalState, levelActionCount, lastAction, gameOvers, resets, reported)
    }

    /** `ipc` is the end of a run of the protocol. */
    ghost predicate OnRun()
      reads this
    {
      Run(protocol, run) && ipc == End(protocol, run)
    }

    ghost predicate WithinCaps()
      reads this
    {
      && (limits.maxTurns.Some? ==> ipc.turn <= limits.maxTurns.value + 2)
      && (limits.maxActionsPerTurn > 0 ==> envSteps <= Larger(0, limits.maxEnvSteps + limits.maxActionsPerTurn))
    }

    ghost predicate Valid()
      reads this
    {
      && OnRun()
      && GameInv(limits.allowedGameOvers, View())
      && Logged(env, calls) && lastAction == LastPlayed(rounds)
      && Recovered(limits.allowedGameOvers, View())
      && WithinCaps()
      && (termination == Some(MaxTurns) ==> limits.maxTurns.Some?)
      && (termination == Some(MaxEnvSteps) ==> envSteps >= limits.maxEnvSteps)
      && (termination.None? ==> ipc.pc.Head? && finalState.Playing?)
      && (termination.Some? ==> ipc.pc.Stopped?)
      && (termination == Some(Won) <==> finalState.Win?)
      && (termination == Some(LostGame) <==> finalState.GameOver?)
    }

    constructor (limits: Limits, protocol: TurnProtocol.Config, available: seq<string>, env: Env)
      ensures Valid() && termination.None? && stalled == 0 && ipc.turn == 0 && rounds == []
      ensures calls == [] && envSteps == 0 && gameOvers == 0 && lastAction.None?
      ensures this.limits == limits && this.protocol == protocol && this.available == available && this.env == env
    {
      this.limits, this.protocol, this.available, this.env := limits, protocol, available, env;
      ipc, run := INITIAL, [];
      calls, envSteps, levelsCompleted, finalState := [], 0, 0, Playing;
      levelActionCount, lastAction, gameOvers, resets, reported := 0, None, 0, 0, [];
      termination, note, stalled, rounds := None, Silent, 0, [];
      new;
      Take(HStart);
      assert ipc.turn == 0 && ipc.pc.Head?;
      FreshStart(limits.allowedGameOvers, View());
    }

    /** One step of the protocol. */
    method Take(step: Step)
      requires OnRun() && Enabled(protocol, ipc, step)
      modifies this`ipc, this`run
      ensures OnRun() && ipc == Apply(protocol, old(ipc), step)
    {
      assert ValidFrom(protocol, ipc, [step]);
      RunsCompose(protocol, INITIAL, run, [step]);
      run := run + [step];
      ipc := Apply(protocol, ipc, step);
    }

    /** Any number of agent steps: the agent runs whenever the harness does not look. */
    method LetAgentRun()
      requires OnRun()
      modifies this`ipc, this`run
      ensures OnRun() && ipc.pc == old(ipc).pc && ipc.turn == old(ipc).turn && ipc.missed == old(ipc).missed
    {
      var moves: seq<Step> := *;
      for i := 0 to |moves|
        invariant OnRun() && ipc.pc == old(ipc).pc && ipc.turn == old(ipc).turn && ipc.missed == old(ipc).missed
      {
        if moves[i].ByAgent() && Enabled(protocol, ipc, moves[i]) {
          Take(moves[i]);
        }
      }
    }

    /** Block reading the action log until a batch arrives or the wait times out. The log is read before the clock, so a
        timeout follows at least one read that found nothing; a batch may be appended between the last read and it. */
    method NextBatch() returns (batch: Option<Batch>)
      requires OnRun() && ipc.pc.Waiting()
      modifies this`ipc, this`run
      ensures OnRun() && ipc.turn == old(ipc).turn
      ensures batch.None? ==> ipc.pc == old(ipc).pc && ipc.missed
      ensures batch.Some? ==> ipc.pc == Executing(false) && WellFormed(protocol, batch.value)
      ensures batch.Some? ==> 0 < ipc.consumed <= |ipc.actions| && batch.value == ipc.actions[ipc.consumed - 1]
    {
      var again: int := *;
      for i := 0 to if again > 0 then 1 + again else 1
        invariant OnRun() && ipc.turn == old(ipc).turn && ipc.pc == old(ipc).pc && (i > 0 ==> ipc.missed)
      {
        batch := Read();
        if batch.Some? { return; }
        LetAgentRun();
      }
      batch := None;
    }

    /** One read of the log: the oldest unread batch, or a miss. */
    method Read() returns (batch: Option<Batch>)
      requires OnRun() && ipc.pc.Waiting()
      modifies this`ipc, this`run
      ensures OnRun() && ipc.turn == old(ipc).turn
      ensures batch.None? ==> ipc.pc == old(ipc).pc && ipc.missed
      ensures batch.Some? ==> ipc.pc == Executing(false) && WellFormed(protocol, batch.value)
      ensures batch.Some? ==> 0 < ipc.consumed <= |ipc.actions| && batch.value == ipc.actions[ipc.consumed - 1]
    {
      LetAgentRun();
      Reached(protocol, run);
      if ipc.consumed == |ipc.actions| {
        Take(HMiss);
        return None;
      }
      batch := Some(ipc.actions[ipc.consumed]);
      Take(HConsume);
    }

    /** The silence ladder: reminder, URGENT nudge, force-advance. It never ends the game and always yields a batch,
        forcing one only after a read that found the log empty. */
    method AwaitBatch() returns (batch: Batch, forced: bool)
      requires OnRun() && ipc.pc.Head?
      modifies this`ipc, this`run
      ensures OnRun() && ipc.pc == Executing(forced)
      ensures old(ipc).turn <= ipc.turn <= old(ipc).turn + 2
      ensures batch.actions != []
      ensures !forced ==> 0 < ipc.consumed <= |ipc.actions| && batch == ipc.actions[ipc.consumed - 1]
      ensures forced ==> |batch.actions| == 1 && batch.truncatedFrom.None? && ipc.turn > old(ipc).turn
      ensures |ipc.actions| - ipc.consumed <= 2
    {
      hide Run, End;
      var read := ClimbLadder();
      forced := false;
      if read.None? {
        var action := DefaultAction(available, lastAction);
        Take(HForce);
        read := Some(Batch(ipc.turn, [action], None));
        forced := true;
      }
      batch := read.value;
      BacklogIsBounded(protocol, run);
    }

    /** The waits and the nudges between them. */
    method ClimbLadder() returns (read: Option<Batch>)
      requires OnRun() && ipc.pc.Head?
      modifies this`ipc, this`run
      ensures OnRun() && old(ipc).turn <= ipc.turn <= old(ipc).turn + 2
      ensures read.None? ==> ipc.pc.Wait3? && ipc.missed && ipc.turn > old(ipc).turn
      ensures read.Some? ==> ipc.pc == Executing(false) && WellFormed(protocol, read.value)
      ensures read.Some? ==> 0 < ipc.consumed <= |ipc.actions| && read.value == ipc.actions[ipc.consumed - 1]
    {
      hide Run, End, WellFormed;
      Take(HBeginWait);
      read := NextBatch();
      if read.None? && protocol.reminder {
        Take(HRemind);
        read := NextBatch();
      }
      if read.None? {
        Take(HUrge);
        read := NextBatch();
      }
    }

    /** The agent's last action has just ended the game. */
    ghost predicate JustDied(calls: seq<Call>) {
      calls != [] &&
      var last := calls[|calls| - 1];
      !last.byHarness && last.outcome.Stepped? && last.outcome.status.GameOver?
    }

    /** GAME_OVER recovery, which keeps the accounts, the budget and the safety of the call log. */
    method AutoResetGame()
      modifies this`calls, this`envSteps, this`levelsCompleted, this`finalState, this`gameOvers, this`resets
      ensures View() == AutoReset(limits.allowedGameOvers, env, old(View()))
      ensures
        var budget := limits.allowedGameOvers;
        GameInv(budget, old(View())) && JustDied(old(calls)) ==> GameInv(budget, View())
    {
      hide GameInv;
      ghost var before := View();
      var budget := limits.allowedGameOvers;
      if GameInv(budget, before) && JustDied(calls) { AutoResetKeepsInv(budget, env, before); }
      if budget == 0 || (budget > 0 && gameOvers >= budget) { return; }
      gameOvers := gameOvers + 1;
      var outcome := env(|calls|);
      calls := calls + [Call("RESET", true, outcome)];
      match outcome
      case Raised =>
      case Stepped(levels, status) =>
        envSteps, resets := envSteps + 1, resets + 1;
        levelsCompleted, finalState := levels, status;
    }

    method PlayOne(action: string) returns (raised: bool)
      modifies this`calls, this`envSteps, this`levelsCompleted, this`finalState, this`levelActionCount,
               this`lastAction, this`reported
      ensures View() == Act(env, old(View()), action)
      ensures raised <==> env(|old(calls)|).Raised?
    {
      var previousLevels := levelsCompleted;
      var outcome := env(|calls|);
      calls := calls + [Call(action, false, outcome)];
      if outcome.Raised? { return true; }
      envSteps, levelActionCount, lastAction := envSteps + 1, levelActionCount + 1, Some(action);
      levelsCompleted, finalState := outcome.levels, outcome.status;
      if levelsCompleted > previousLevels {
        reported := reported + [levelActionCount];
        levelActionCount := 0;
      }
      return false;
    }

    /** The action loop of one round. */
    method PlayBatch(actions: seq<string>) returns (executed: nat, stop: Stop)
      modifies this`calls, this`envSteps, this`levelsCompleted, this`finalState, this`levelActionCount,
               this`lastAction, this`gameOvers, this`resets, this`reported
      ensures Played(View(), executed, stop) == Play(limits.allowedGameOvers, env, old(View()), actions)
    {
      ghost var played := Play(limits.allowedGameOvers, env, View(), actions);
      executed, stop := 0, Completed;
      for i := 0 to |actions|
        invariant executed == i && stop == Completed
        invariant played == Resume(i, Play(limits.allowedGameOvers, env, View(), actions[i..]))
      {
        ghost var game := View();
        assert actions[i..][0] == actions[i] && actions[i..][1..] == actions[i + 1..];
        var remaining := |actions| - i - 1;
        var previousLevels := levelsCompleted;
        var raised := PlayOne(actions[i]);
        if raised {
          stop := ActionRaised(remaining);
          return;
        }
        executed := executed + 1;
        if finalState.Win? {
          stop := Solved(remaining);
          return;
        }
        if finalState.GameOver? {
          AutoResetGame();
          stop := Died(remaining);
          return;
        }
        if levelsCompleted > previousLevels && remaining > 0 {
          stop := LevelUp(remaining);
          return;
        }
      }
    }

    /** The first `done` actions have been played, and the rest of the batch goes as `rest`. */
    static ghost function Resume(done: nat, rest: Played): Played {
      rest.(executed := rest.executed + done)
    }

    ghost predicate NeverRaises() {
      forall n: nat :: env(n).Stepped?
    }

    /** The game never ends: no step wins or dies. */
    ghost predicate PlaysOn() {
      forall n: nat :: env(n).Stepped? ==> env(n).status.Playing?
    }

    ghost predicate AtCap()
      reads this
    {
      (limits.maxTurns.Some? && ipc.turn >= limits.maxTurns.value) || envSteps >= limits.maxEnvSteps
    }

    /** Play the capped batch and word the note that will account for it. */
    method PlayTaken(batch: Batch) returns (executed: nat, stop: Stop)
      requires GameInv(limits.allowedGameOvers, View()) && Logged(env, calls)
      requires Recovered(limits.allowedGameOvers, View())
      requires finalState.Playing? && batch.actions != []
      modifies this`calls, this`envSteps, this`levelsCompleted, this`finalState, this`levelActionCount,
               this`lastAction, this`gameOvers, this`resets, this`reported, this`note, this`stalled
      ensures GameInv(limits.allowedGameOvers, View()) && Logged(env, calls)
      ensures Recovered(limits.allowedGameOvers, View())
      ensures
        var actions := ApplyActionCap(batch.actions, limits.maxActionsPerTurn);
        && executed <= |actions|
        && lastAction == if executed == 0 then old(lastAction) else Some(actions[executed - 1])
      ensures old(envSteps) <= envSteps && old(calls) <= calls && |old(calls)| < |calls|
      ensures limits.maxActionsPerTurn > 0 ==> envSteps <= old(envSteps) + limits.maxActionsPerTurn + 1
      ensures env(|old(calls)|).Stepped? ==> old(envSteps) < envSteps && stalled == old(stalled)
      ensures env(|old(calls)|).Raised? ==>
                envSteps == old(envSteps) && stalled == old(stalled) + 1 && finalState.Playing?
      ensures
        var actions := ApplyActionCap(batch.actions, limits.maxActionsPerTurn);
        && Played(View(), executed, stop) == Play(limits.allowedGameOvers, env, old(View()), actions)
        && note == NoteOf(Requested(batch), |actions|, stop)
    {
      hide GamePlay.GameInv, Recovered;
      var actions := ApplyActionCap(batch.actions, limits.maxActionsPerTurn);
      ghost var before := View();
      PlayKeepsInv(limits.allowedGameOvers, env, before, actions);
      PlayCost(limits.allowedGameOvers, env, before, actions);
      PlayIsInOrder(limits.allowedGameOvers, env, before, actions);
      FirstCall(limits.allowedGameOvers, env, before, actions);
      PlayIsLogged(limits.allowedGameOvers, env, before, actions);
      PlayRecovers(limits.allowedGameOvers, env, before, actions);
      LastActionIsLastPlayed(limits.allowedGameOvers, env, before, actions);
      executed, stop := PlayBatch(actions);
      note := NoteOf(Requested(batch), |actions|, stop);
      if env(|before.calls|).Raised? {
        stalled := stalled + 1;
      }
    }

    /** The round itself: wait, play the capped batch, publish one state whose note accounts for it. */
    method PlayRound() returns (ghost batch: Batch, ghost forced: bool, ghost executed: nat, ghost stop: Stop)
      requires Valid() && termination.None? && !AtCap()
      modifies this
      ensures OnRun() && GameInv(limits.allowedGameOvers, View())
      ensures Logged(env, calls) && lastAction == LastPlayed(rounds)
      ensures Recovered(limits.allowedGameOvers, View())
      ensures
        rounds == old(rounds)
          + [RoundRecord(forced, ApplyActionCap(batch.actions, limits.maxActionsPerTurn), executed)]
      ensures ipc.pc == if finalState.Win? then Stopped else Head
      ensures old(ipc).turn < ipc.turn <= old(ipc).turn + 3
      ensures old(envSteps) <= envSteps && old(calls) <= calls && |old(calls)| < |calls|
      ensures limits.maxActionsPerTurn > 0 ==> envSteps <= old(envSteps) + limits.maxActionsPerTurn + 1
      ensures env(|old(calls)|).Stepped? ==> old(envSteps) < envSteps && stalled == old(stalled)
      ensures env(|old(calls)|).Raised? ==>
                envSteps == old(envSteps) && stalled == old(stalled) + 1 && finalState.Playing?
      ensures termination == old(termination)
      ensures !forced ==> 0 < ipc.consumed <= |ipc.actions| && batch == ipc.actions[ipc.consumed - 1]
      ensures
        var actions := ApplyActionCap(batch.actions, limits.maxActionsPerTurn);
        && Played(View(), executed, stop) == Play(limits.allowedGameOvers, env, old(View()), actions)
        && note == NoteOf(Requested(batch), |actions|, stop)
    {
      hide GamePlay.GameInv, Recovered, Play, ApplyActionCap, Requested, NoteOf, LastPlayed;
      var taken, invented := AwaitBatch();
      batch, forced := taken, invented;
      executed, stop := PlayTaken(taken);
      Take(HFinish(finalState.Win?));
      rounds := rounds + [RoundRecord(forced, ApplyActionCap(taken.actions, limits.maxActionsPerTurn), executed)];
      LastPlayedOneMore(old(rounds), rounds[|rounds| - 1]);
    }

    /** One iteration of the main loop: either the run ends at a cap, or a round is played. */
    method Round()
      requires Valid() && termination.None?
      modifies this
      ensures Valid()
      ensures old(ipc).turn <= ipc.turn <= old(ipc).turn + 3 && old(envSteps) <= envSteps && old(calls) <= calls
      ensures old(AtCap()) ==> termination.Some? && calls == old(calls) && stalled == old(stalled)
      ensures !old(AtCap()) ==>
                && old(ipc).turn < ipc.turn && |old(calls)| < |calls|
                && (env(|old(calls)|).Stepped? ==> old(envSteps) < envSteps && stalled == old(stalled))
                && (env(|old(calls)|).Raised? ==>
                      envSteps == old(envSteps) && stalled == old(stalled) + 1 && termination.None?)
    {
      hide GameInv, Recovered, LastPlayed, Logged, Run, End;
      if limits.maxTurns.Some? && ipc.turn >= limits.maxTurns.value {
        Take(HStop);
        termination := Some(MaxTurns);
        return;
      }
      if envSteps >= limits.maxEnvSteps {
        Take(HStop);
        termination := Some(MaxEnvSteps);
        return;
      }
      ghost var _, _, _, _ := PlayRound();
      if finalState.Win? {
        termination := Some(Won);
      } else if finalState.GameOver? {
        Take(HStop);
        termination := Some(LostGame);
      }
    }

    /** The main loop, for at most `budget` rounds. With no turn limit and a game that never wins or dies, it ends if and
        only if some number `n` of answers of the game holds `max_env_steps` steps, and then within n + 1 rounds. With a
        turn limit it ends within max_turns rounds and one. */
    method RunLoop(budget: nat)
      requires Valid() && termination.None? && calls == [] && stalled == 0 && ipc.turn == 0
      modifies this
      ensures Valid()
      ensures limits.maxTurns.None? && PlaysOn() && termination.Some? ==>
                StepsAmong(env, |calls|) >= limits.maxEnvSteps
      ensures forall n: nat :: n < budget && StepsAmong(env, n) >= limits.maxEnvSteps ==> termination.Some?
      ensures termination.None? ==> budget <= Larger(0, limits.maxEnvSteps) + stalled
      ensures termination.None? && limits.maxTurns.Some? ==> budget <= limits.maxTurns.value
      ensures NeverRaises() ==> stalled == 0
    {
      var round := 0;
      while round < budget && termination.None?
        invariant Valid() && round <= budget
        invariant termination.None? ==> round <= envSteps + stalled && round <= ipc.turn && round <= |calls|
        invariant termination.None? ==> round <= Larger(0, limits.maxEnvSteps) + stalled
        invariant termination.None? && limits.maxTurns.Some? ==> round <= limits.maxTurns.value
        invariant NeverRaises() ==> stalled == 0
        invariant termination.None? ==> forall n: nat :: n < round ==> StepsAmong(env, n) < limits.maxEnvSteps
      {
        StepsBefore(round);
        Round();
        round := round + 1;
      }
      LoggedSteps(env, calls);
      EndedAtCap();
    }

    /** The run ends as lost exactly when its last death found the budget spent, or its RESET raised or died again. */
    lemma LostGameIff()
      requires Valid()
      ensures termination == Some(LostGame) <==> Lost(calls)
      ensures termination == Some(LostGame) && Dies(calls[|calls| - 1]) ==>
                limits.allowedGameOvers >= 0 && gameOvers >= limits.allowedGameOvers
    {
      hide GameInv, Recovered, Logged, LastPlayed, Run, End;
      LostIff(limits.allowedGameOvers, View());
    }

    /** A game that plays on can only run into a cap. */
    lemma EndedAtCap()
      requires Valid()
      ensures PlaysOn() && limits.maxTurns.None? && termination.Some? ==>
                StepsAmong(env, |calls|) >= limits.maxEnvSteps
    {
      LoggedSteps(env, calls);
      assert finalState == StatusAfter(calls) && envSteps == SteppedCalls(calls);
      if PlaysOn() && termination.Some? {
        assert finalState.Playing?;
        match termination.value
        case Won =>
        case LostGame =>
        case MaxTurns =>
        case MaxEnvSteps =>
      }
    }

    /** Below the step limit, no fewer answers hold as many steps. */
    lemma StepsBefore(round: nat)
      requires Valid() && round <= |calls|
      ensures envSteps < limits.maxEnvSteps ==>
                forall n: nat :: n <= round ==> StepsAmong(env, n) < limits.maxEnvSteps
    {
      LoggedSteps(env, calls);
      forall n: nat | n <= round { StepsAmongGrow(env, n, |calls|); }
    }
  }
}
