/**
 What every run of the turn protocol guarantees, in every interleaving of the two actors: the logs, the order of
 execution, the accounting of turns, and that the two sides never wait for each other.
 */
module TurnSafety {
  import opened Options
  import opened TurnProtocol

  /** A run from the empty logs. */
  ghost predicate Run(c: Config, steps: seq<Step>) {
    ValidFrom(c, INITIAL, steps)
  }

  ghost function End(c: Config, steps: seq<Step>): State
    requires Run(c, steps)
  {
    Final(c, INITIAL, steps)
  }

  lemma Reached(c: Config, steps: seq<Step>)
    requires Run(c, steps)
    ensures Inv(c, End(c, steps))
  {
    RunKeepsInv(c, INITIAL, steps);
  }

  // -------------------------------------------------------------------------------------------------- submissions

  /** At most one batch per turn, in turn order, never for a turn that was not published; each batch is non-empty,
      within the agent's cap, and says when its tail was cut. */
  lemma {:induction false} SubmissionsOncePerTurn(c: Config, steps: seq<Step>)
    requires Run(c, steps)
    ensures
      var s := End(c, steps);
      && (forall i, j :: 0 <= i < j < |s.actions| ==> s.actions[i].turn < s.actions[j].turn)
      && (forall i :: 0 <= i < |s.actions| ==>
            && s.actions[i].turn < |s.states|
            && s.states[s.actions[i].turn].turn == s.actions[i].turn
            && s.actions[i].actions != []
            && (c.agentCap > 0 ==> |s.actions[i].actions| <= c.agentCap))
  {
    Reached(c, steps);
    var s := End(c, steps);
    forall i | 0 <= i < |s.actions|
      ensures s.actions[i].turn < |s.states| && s.states[s.actions[i].turn].turn == s.actions[i].turn
    {
      assert WellFormed(c, s.actions[i]);
      assert s.actions[i].turn <= s.turn;
    }
    forall i | 0 <= i < |s.actions| ensures WellFormed(c, s.actions[i]) {}
  }

  /** The line holds the first `cap` of the requested actions, or all of them, and says how many there were only if it was
      cut. */
  ghost predicate IsCutOf(b: Batch, requested: seq<string>, cap: int) {
    && b.actions <= requested
    && |b.actions| == (if 0 < cap < |requested| then cap else |requested|)
    && b.truncatedFrom == (if |b.actions| < |requested| then Some(|requested|) else None)
  }

  /** What an append adds to the log: the actions submitted, for the turn that was read. */
  lemma AppendedLine(c: Config, s: State, requested: seq<string>)
    requires Enabled(c, s, AAppend(requested))
    ensures
      var log := Apply(c, s, AAppend(requested)).actions;
      && |log| == |s.actions| + 1 && s.actions <= log
      && log[|s.actions|].turn == s.agent.turn && IsCutOf(log[|s.actions|], requested, c.agentCap)
  {
  }

  /** The actions asked for in the submissions of the run. */
  ghost function Requests(steps: seq<Step>): seq<seq<string>> {
    if steps == [] then []
    else (if steps[0].AAppend? then [steps[0].requested] else []) + Requests(steps[1..])
  }

  ghost predicate AreCutsOf(batches: seq<Batch>, requests: seq<seq<string>>, cap: int) {
    |batches| == |requests| && forall i :: 0 <= i < |batches| ==> IsCutOf(batches[i], requests[i], cap)
  }

  lemma {:induction false} LinesFrom(c: Config, s: State, steps: seq<Step>)
    requires ValidFrom(c, s, steps)
    ensures
      var log := Final(c, s, steps).actions;
      s.actions <= log && AreCutsOf(log[|s.actions|..], Requests(steps), c.agentCap)
    decreases |steps|
  {
    hide Apply, IsCutOf;
    if steps != [] {
      var m := Apply(c, s, steps[0]);
      LinesFrom(c, m, steps[1..]);
      var log := Final(c, s, steps).actions;
      if steps[0].AAppend? {
        AppendedLine(c, s, steps[0].requested);
        assert log[|s.actions|] == m.actions[|s.actions|];
        assert log[|s.actions|..] == [log[|s.actions|]] + log[|m.actions|..];
      } else {
        OthersAppendNothing(c, s, steps[0]);
      }
    }
  }

  lemma OthersAppendNothing(c: Config, s: State, step: Step)
    requires Enabled(c, s, step) && !step.AAppend?
    ensures Apply(c, s, step).actions == s.actions
  {}

  /** Line by line, the action log is what the agent submitted, in order, each cut to the agent's cap and marked as cut
      exactly when it was. */
  lemma LinesAreRequests(c: Config, steps: seq<Step>)
    requires Run(c, steps)
    ensures AreCutsOf(End(c, steps).actions, Requests(steps), c.agentCap)
  {
    hide ValidFrom, Final;
    LinesFrom(c, INITIAL, steps);
    assert End(c, steps).actions[0..] == End(c, steps).actions;
  }

  /** The batches the harness took over the run, in the order it took them. */
  ghost function Taken(c: Config, s: State, steps: seq<Step>): seq<Batch>
    requires ValidFrom(c, s, steps)
    decreases |steps|
  {
    if steps == [] then []
    else (if steps[0].HConsume? then [s.actions[s.consumed]] else []) + Taken(c, Apply(c, s, steps[0]), steps[1..])
  }

  lemma StepTakes(c: Config, s: State, step: Step)
    requires Enabled(c, s, step) && s.consumed <= |s.actions|
    ensures
      var m := Apply(c, s, step);
      && s.actions <= m.actions && m.consumed <= |m.actions|
      && m.consumed == s.consumed + (if step.HConsume? then 1 else 0)
      && (step.HConsume? ==> s.consumed < |s.actions|)
  {}

  lemma {:induction false} TakenFrom(c: Config, s: State, steps: seq<Step>)
    requires ValidFrom(c, s, steps) && s.consumed <= |s.actions|
    ensures
      var e := Final(c, s, steps);
      && s.actions <= e.actions
      && s.consumed <= e.consumed <= |e.actions|
      && Taken(c, s, steps) == e.actions[s.consumed..e.consumed]
    decreases |steps|
  {
    hide Apply;
    if steps != [] {
      var m := Apply(c, s, steps[0]);
      StepTakes(c, s, steps[0]);
      TakenFrom(c, m, steps[1..]);
      var e := Final(c, s, steps);
      if steps[0].HConsume? {
        assert e.actions[s.consumed] == s.actions[s.consumed];
        assert e.actions[s.consumed..e.consumed] == [e.actions[s.consumed]] + e.actions[m.consumed..e.consumed];
      }
    }
  }

  /** Exactly once, in order: what the harness executed from the log is a prefix of what the agent submitted. */
  lemma ExecutedIsPrefixOfSubmitted(c: Config, steps: seq<Step>)
    requires Run(c, steps)
    ensures
      var s := End(c, steps);
      && s.consumed <= |s.actions|
      && Taken(c, INITIAL, steps) == s.actions[..s.consumed]
      && Taken(c, INITIAL, steps) <= s.actions
  {
    TakenFrom(c, INITIAL, steps);
  }

  // --------------------------------------------------------------------------------------------------- accounting

  ghost function Count(steps: seq<Step>, kind: Step -> bool): nat {
    if steps == [] then 0 else (if kind(steps[0]) then 1 else 0) + Count(steps[1..], kind)
  }

  ghost const CONSUMES := (step: Step) => step.HConsume?
  ghost const FORCES := (step: Step) => step.HForce?
  ghost const NUDGES := (step: Step) => step.HRemind? || step.HUrge?

  lemma {:induction false} CountersCount(c: Config, s: State, steps: seq<Step>)
    requires ValidFrom(c, s, steps)
    ensures
      var e := Final(c, s, steps);
      && e.consumed == s.consumed + Count(steps, CONSUMES)
      && e.forced == s.forced + Count(steps, FORCES)
      && e.nudges == s.nudges + Count(steps, NUDGES)
    decreases |steps|
  {
    if steps != [] {
      CountersCount(c, Apply(c, s, steps[0]), steps[1..]);
    }
  }

  ghost const PUBLISHES := (step: Step) => step.HStart? || step.HRemind? || step.HUrge? || step.HFinish? || step.HStop?

  lemma {:induction false} LinesFromSteps(c: Config, s: State, steps: seq<Step>)
    requires ValidFrom(c, s, steps)
    ensures |Final(c, s, steps).states| == |s.states| + Count(steps, PUBLISHES)
    decreases |steps|
  {
    if steps != [] {
      LinesFromSteps(c, Apply(c, s, steps[0]), steps[1..]);
    }
  }

  /** One state line for the start, for every nudge, for every finished round, and for the close of a run that is stopped. */
  lemma EveryAdvanceIsPublished(c: Config, steps: seq<Step>)
    requires Run(c, steps)
    ensures |End(c, steps).states| == Count(steps, PUBLISHES)
  {
    hide ValidFrom, Final, Count;
    LinesFromSteps(c, INITIAL, steps);
  }

  /** At every loop head `states[i].turn = i` and the turn number is the number of batches taken plus force-advances
      plus nudges; while a batch is executing it is one behind that sum. */
  lemma TurnsAreConserved(c: Config, steps: seq<Step>)
    requires Run(c, steps)
    ensures
      var s := End(c, steps);
      && Count(steps, CONSUMES) + Count(steps, FORCES) + Count(steps, NUDGES)
           == s.turn + (if s.pc.Executing? then 1 else 0)
      && (s.pc.Head? ==> |s.states| == s.turn + 1 && forall i :: 0 <= i < |s.states| ==> s.states[i].turn == i)
  {
    Reached(c, steps);
    CountersCount(c, INITIAL, steps);
  }

  lemma {:induction false} IncreasingFromZero(batches: seq<Batch>, i: nat)
    requires StrictlyIncreasing(batches) && i < |batches|
    ensures i <= batches[i].turn
  {
    if i > 0 {
      IncreasingFromZero(batches, i - 1);
      assert batches[i - 1].turn < batches[i].turn;
    }
  }

  /** A batch the harness is about to take was submitted for a turn at most (force-advances + nudges) turns ago. */
  lemma StalenessIsBounded(c: Config, steps: seq<Step>)
    requires Run(c, steps) && Enabled(c, End(c, steps), HConsume)
    ensures
      var s := End(c, steps);
      s.turn - s.actions[s.consumed].turn <= Count(steps, FORCES) + Count(steps, NUDGES)
  {
    Reached(c, steps);
    CountersCount(c, INITIAL, steps);
    IncreasingFromZero(End(c, steps).actions, End(c, steps).consumed);
  }

  lemma {:induction false} RunsCompose(c: Config, s: State, front: seq<Step>, back: seq<Step>)
    requires ValidFrom(c, s, front) && ValidFrom(c, Final(c, s, front), back)
    ensures ValidFrom(c, s, front + back) && Final(c, s, front + back) == Final(c, Final(c, s, front), back)
    decreases |front|
  {
    if front == [] {
      assert front + back == back;
    } else {
      RunsCompose(c, Apply(c, s, front[0]), front[1..], back);
      assert (front + back)[1..] == front[1..] + back;
    }
  }

  // ------------------------------------------------------------------------------------------------- mutual wait

  /** Wherever the harness is blocked reading, every batch it has consumed is for an earlier turn. */
  lemma ConsumedBatchesAreOld(c: Config, steps: seq<Step>)
    requires Run(c, steps) && End(c, steps).pc.Waiting()
    ensures
      var s := End(c, steps);
      && s.consumed <= |s.actions|
      && forall i :: 0 <= i < s.consumed ==> s.actions[i].turn < s.turn
  {
    Reached(c, steps);
  }

  /** No mutual wait: if the harness is blocked reading and the newest state already has a submission (so the agent may
      neither resubmit nor be refused a WAIT), that submission is still unread. */
  lemma NoMutualWait(c: Config, steps: seq<Step>)
    requires Run(c, steps) && End(c, steps).pc.Waiting()
    requires LatestState(End(c, steps)).Some?
    requires LastSubmitted(End(c, steps)) == Some(LatestState(End(c, steps)).value.turn)
    ensures End(c, steps).consumed < |End(c, steps).actions|
  {
    Reached(c, steps);
    LatestIsCurrent(End(c, steps));
  }

  /** The same seen from the dispatcher: an idle agent that has been handed every published state, facing a harness
      that is blocked reading, has left a batch in the log. Neither side can wait for ever for the other. */
  lemma IdleAgentLeftABatch(c: Config, steps: seq<Step>)
    requires Run(c, steps)
    requires End(c, steps).pc.Waiting()
    requires End(c, steps).agent.Idle? && End(c, steps).delivered == |End(c, steps).states|
    ensures End(c, steps).consumed < |End(c, steps).actions|
  {
    Reached(c, steps);
    var s := End(c, steps);
    LatestIsCurrent(s);
    assert Answered(s, s.agent.seen);
    NoMutualWait(c, steps);
  }

  /** The other half: while the harness waits with nothing left to read, a submission cannot be refused as a duplicate
      or as "already won", and an unbacked WAIT is refused: short of returning for good, the agent can only submit. */
  lemma DrainedHarnessGetsAnAnswer(c: Config, steps: seq<Step>)
    requires Run(c, steps)
    requires End(c, steps).pc.Waiting() && End(c, steps).consumed == |End(c, steps).actions|
    requires End(c, steps).agent.Thinking?
    ensures
      var s := End(c, steps);
      var read := Apply(c, s, ARead);
      var asked := Apply(c, s, AWaitRead);
      && Enabled(c, read, ACheck)
      && Apply(c, read, ACheck).agent == DuplicateChecked(s.turn)
      && Enabled(c, asked, AWaitCheck)
      && Apply(c, asked, AWaitCheck).agent == Thinking
  {
    Reached(c, steps);
    WaitingIsUnwon(c, INITIAL, steps);
    LatestIsCurrent(End(c, steps));
  }

  /** The agent may rest once it has answered: with the newest state's turn submitted, its WAIT is accepted. */
  lemma AnsweredWaitIsAccepted(c: Config, s: State)
    requires s.agent.Thinking? && LatestState(s).Some? && LastSubmitted(s) == Some(LatestState(s).value.turn)
    ensures
      var asked := Apply(c, s, AWaitRead);
      Enabled(c, asked, AWaitCheck) && Apply(c, asked, AWaitCheck).agent == Idle(|s.states|)
  {
  }

  /** The game is won: the run holds the step, and the newest line says so. */
  ghost predicate WonLine(s: State) {
    exists i :: 0 <= i < |s.states| && s.states[i].won
  }

  lemma {:induction false} WonFrom(c: Config, s: State, steps: seq<Step>)
    requires ValidFrom(c, s, steps)
    requires s.pc.Boot? ==> s.states == []
    requires forall i :: 0 <= i < |s.states| && s.states[i].won ==> s.pc.Stopped? && i == |s.states| - 1
    ensures
      var e := Final(c, s, steps);
      && (WonLine(e) <==> WonLine(s) || HFinish(true) in steps)
      && (forall i :: 0 <= i < |e.states| && e.states[i].won ==> e.pc.Stopped? && i == |e.states| - 1)
    decreases |steps|
  {
    if steps != [] {
      WonStep(c, s, steps[0]);
      hide Apply, Enabled, WonLine;
      WonFrom(c, Apply(c, s, steps[0]), steps[1..]);
      assert HFinish(true) in steps <==> steps[0] == HFinish(true) || HFinish(true) in steps[1..];
    }
  }

  lemma WonStep(c: Config, s: State, step: Step)
    requires Enabled(c, s, step) && (s.pc.Boot? ==> s.states == [])
    requires forall i :: 0 <= i < |s.states| && s.states[i].won ==> s.pc.Stopped? && i == |s.states| - 1
    ensures
      var m := Apply(c, s, step);
      && (m.pc.Boot? ==> m.states == [])
      && (WonLine(m) <==> WonLine(s) || step == HFinish(true))
      && (forall i :: 0 <= i < |m.states| && m.states[i].won ==> m.pc.Stopped? && i == |m.states| - 1)
  {
    var m := Apply(c, s, step);
    assert s.states <= m.states;
    if WonLine(s) {
      var i :| 0 <= i < |s.states| && s.states[i].won;
      assert m.states[i].won;
    }
    if step == HFinish(true) { assert m.states[|m.states| - 1].won; }
  }

  /** A state line says the game is won exactly when the run has won it; it is then the last, and an agent that reads it
      submits nothing. */
  lemma WonIsPublished(c: Config, steps: seq<Step>)
    requires Run(c, steps)
    ensures
      var s := End(c, steps);
      && (WonLine(s) <==> HFinish(true) in steps)
      && (WonLine(s) ==> LatestState(s).Some? && LatestState(s).value.won)
      && (WonLine(s) && s.agent.Thinking? ==> Apply(c, s, ARead) == s)
  {
    hide ValidFrom, Final;
    WonFrom(c, INITIAL, steps);
  }

  ghost predicate UnwonWhileOpen(s: State) {
    s.states != [] && !s.pc.Stopped? ==> !s.states[|s.states| - 1].won
  }

  lemma {:induction false} WaitingIsUnwon(c: Config, s: State, steps: seq<Step>)
    requires ValidFrom(c, s, steps) && UnwonWhileOpen(s)
    ensures UnwonWhileOpen(Final(c, s, steps))
    decreases |steps|
  {
    if steps != [] {
      WaitingIsUnwon(c, Apply(c, s, steps[0]), steps[1..]);
    }
  }
}
