/**
 How far the two sides of the protocol can drift apart. The backlog of unread batches never exceeds three, however long the
 agent is silent; the age of a batch has no such bound, because the agent's read and its append are two steps.
 */
module TurnBacklog {
  import opened Options
  import opened TurnProtocol
  import opened TurnSafety

  // ---------------------------------------------------------------------------------------------------- the backlog

  /** How many batches the agent can still append before the next state is published: one for the turn it has already read,
      and one for the newest. */
  ghost function MayAppend(s: State): nat {
    if s.states == [] then 0
    else
      match s.agent
      case DuplicateChecked(turn) => if turn < s.turn then 2 else 1
      case StateRead(turn) => (if LastSubmitted(s) == Some(turn) then 0 else 1) + (if turn < s.turn then 1 else 0)
      case _ => if LastSubmitted(s) == Some(s.turn) then 0 else 1
  }

  ghost function Ahead(s: State): int {
    |s.actions| - s.consumed + MayAppend(s)
  }

  /** Three, and one less once the harness may advance: after a read that missed, or while it executes. */
  ghost predicate Close(s: State) {
    Ahead(s) <= if (s.pc.Waiting() && s.missed) || s.pc.Executing? then 2 else 3
  }

  lemma AgentStaysClose(c: Config, s: State, step: Step)
    requires Inv(c, s) && Enabled(c, s, step) && step.ByAgent()
    ensures Ahead(Apply(c, s, step)) <= Ahead(s)
  {
    if step.ARead? && s.states != [] { LatestIsCurrent(s); }
    if step.AAppend? {
      var s' := Apply(c, s, step);
      assert s'.actions[|s'.actions| - 1].turn == s.agent.turn;
    }
  }

  /** A new state lets the agent append at most once more. */
  lemma PublishAddsOne(c: Config, s: State, won: bool)
    requires Inv(c, s)
    ensures MayAppend(Publish(s, s.turn + 1, won)) <= MayAppend(s) + 1 || s.states == []
  {
  }

  lemma HarnessStaysClose(c: Config, s: State, step: Step)
    requires Inv(c, s) && Close(s) && Enabled(c, s, step) && !step.ByAgent()
    ensures Close(Apply(c, s, step))
  {
    match step
    case HRemind => PublishAddsOne(c, s, false);
    case HUrge => PublishAddsOne(c, s, false);
    case HFinish(won) => PublishAddsOne(c, s, won);
    case _ =>
  }

  lemma StepStaysClose(c: Config, s: State, step: Step)
    requires Inv(c, s) && Close(s) && Enabled(c, s, step)
    ensures Close(Apply(c, s, step))
  {
    if step.ByAgent() { AgentStaysClose(c, s, step); } else { HarnessStaysClose(c, s, step); }
  }

  lemma {:induction false} RunStaysClose(c: Config, s: State, steps: seq<Step>)
    requires Inv(c, s) && Close(s) && ValidFrom(c, s, steps)
    ensures Close(Final(c, s, steps))
    decreases |steps|
  {
    if steps != [] {
      StepStaysClose(c, s, steps[0]);
      StepKeepsInv(c, s, steps[0]);
      RunStaysClose(c, Apply(c, s, steps[0]), steps[1..]);
    }
  }

  /** The harness never has more than three batches to read, nor more than one more than the turns it has advanced by
      itself; it advances by itself only with at most two. */
  lemma BacklogIsBounded(c: Config, steps: seq<Step>)
    requires Run(c, steps)
    ensures
      var s := End(c, steps);
      && |s.actions| - s.consumed <= 3
      && |s.actions| - s.consumed <= 1 + Count(steps, FORCES) + Count(steps, NUDGES)
      && ((s.pc.Waiting() && s.missed) || s.pc.Executing? ==> |s.actions| - s.consumed <= 2)
  {
    hide ValidFrom, Final, Count, Inv;
    Reached(c, steps);
    StaysClose(c, steps);
    AdvancesOf(c, steps);
    AheadOfAdvances(c, End(c, steps));
  }

  lemma StaysClose(c: Config, steps: seq<Step>)
    requires Run(c, steps)
    ensures Close(End(c, steps))
  {
    hide Inv, Close, ValidFrom, Final;
    StartIsClose(c);
    RunStaysClose(c, INITIAL, steps);
  }

  lemma StartIsClose(c: Config)
    ensures Inv(c, INITIAL) && Close(INITIAL)
  {}

  lemma AdvancesOf(c: Config, steps: seq<Step>)
    requires Run(c, steps)
    ensures End(c, steps).forced == Count(steps, FORCES) && End(c, steps).nudges == Count(steps, NUDGES)
  {
    CountersCount(c, INITIAL, steps);
  }

  lemma AheadOfAdvances(c: Config, s: State)
    requires Inv(c, s)
    ensures |s.actions| - s.consumed <= 1 + s.forced + s.nudges
  {
    if s.actions != [] {
      IncreasingFromZero(s.actions, |s.actions| - 1);
      assert s.actions[|s.actions| - 1].turn <= s.turn;
    }
  }

  // ------------------------------------------------------------------------------------------------------ witnesses

  /** One more step of a run. */
  lemma Extend(c: Config, s: State, steps: seq<Step>, step: Step) returns (longer: seq<Step>)
    requires ValidFrom(c, s, steps) && Enabled(c, Final(c, s, steps), step)
    ensures ValidFrom(c, s, longer) && Final(c, s, longer) == Apply(c, Final(c, s, steps), step)
  {
    assert ValidFrom(c, Final(c, s, steps), [step]);
    assert [step][1..] == [];
    RunsCompose(c, s, steps, [step]);
    longer := steps + [step];
  }

  /** The agent has read the newest state, found no answer to it, and not answered yet. */
  lemma Hesitate(c: Config) returns (steps: seq<Step>)
    ensures Run(c, steps)
    ensures End(c, steps) == INITIAL.(states := [StateLine(0, false)], pc := Head, agent := DuplicateChecked(0))
  {
    steps := [];
    steps := Extend(c, INITIAL, steps, HStart);
    steps := Extend(c, INITIAL, steps, AMessage);
    steps := Extend(c, INITIAL, steps, ARead);
    steps := Extend(c, INITIAL, steps, ACheck);
  }

  /** The agent answers the newest state. */
  lemma Answer(c: Config, steps: seq<Step>) returns (all: seq<Step>)
    requires Run(c, steps)
    requires
      var s := End(c, steps);
      s.agent.Thinking? && LatestState(s) == Some(StateLine(s.turn, false)) && LastSubmitted(s) != Some(s.turn)
    ensures Run(c, all)
    ensures
      var s := End(c, steps);
      End(c, all) == s.(actions := s.actions + [Entry(c, s.turn, ["UP"])], agent := Thinking)
  {
    all := Extend(c, INITIAL, steps, ARead);
    all := Extend(c, INITIAL, all, ACheck);
    all := Extend(c, INITIAL, all, AAppend(["UP"]));
  }

  /** The bound is reached: a read misses, the agent answers two turns, the harness advances, and the agent answers again. */
  lemma BacklogOfThreeIsReached(c: Config) returns (steps: seq<Step>)
    ensures Run(c, steps) && |End(c, steps).actions| - End(c, steps).consumed == 3
  {
    steps := Hesitate(c);
    steps := Extend(c, INITIAL, steps, HBeginWait);
    steps := Extend(c, INITIAL, steps, HMiss);
    steps := Extend(c, INITIAL, steps, if c.reminder then HRemind else HUrge);
    steps := Extend(c, INITIAL, steps, HMiss);
    steps := Extend(c, INITIAL, steps, AAppend(["UP"]));
    steps := Answer(c, steps);
    if c.reminder {
      steps := Extend(c, INITIAL, steps, HUrge);
    } else {
      steps := Extend(c, INITIAL, steps, HForce);
      steps := Extend(c, INITIAL, steps, HFinish(false));
    }
    steps := Answer(c, steps);
  }

  /** The advances of one silent round: its nudges and the force-advance. */
  function Advances(c: Config): nat {
    if c.reminder then 3 else 2
  }

  /** The agent has hesitated over state 0 for `turn` advances. */
  ghost predicate Hesitating(s: State, advances: nat) {
    && s.pc.Head? && s.agent == DuplicateChecked(0) && s.actions == [] && s.consumed == 0
    && s.turn == advances && s.forced + s.nudges == advances
  }

  lemma SilentRound(c: Config, steps: seq<Step>, advances: nat) returns (longer: seq<Step>)
    requires Run(c, steps) && Hesitating(End(c, steps), advances)
    ensures Run(c, longer) && Hesitating(End(c, longer), advances + Advances(c))
  {
    longer := Extend(c, INITIAL, steps, HBeginWait);
    longer := Extend(c, INITIAL, longer, HMiss);
    if c.reminder {
      longer := Extend(c, INITIAL, longer, HRemind);
      longer := Extend(c, INITIAL, longer, HMiss);
    }
    longer := Extend(c, INITIAL, longer, HUrge);
    longer := Extend(c, INITIAL, longer, HMiss);
    longer := Extend(c, INITIAL, longer, HForce);
    longer := Extend(c, INITIAL, longer, HFinish(false));
  }

  lemma {:induction false} SilentRounds(c: Config, rounds: nat) returns (steps: seq<Step>)
    ensures Run(c, steps) && Hesitating(End(c, steps), rounds * Advances(c))
  {
    if rounds == 0 {
      steps := Hesitate(c);
    } else {
      steps := SilentRounds(c, rounds - 1);
      steps := SilentRound(c, steps, (rounds - 1) * Advances(c));
    }
  }

  /** The age bound is tight at every number of silent rounds: an agent that has passed its duplicate check may append when
      all of them are over, and the harness will take the batch. */
  lemma StalenessBoundIsTight(c: Config, rounds: nat) returns (steps: seq<Step>)
    ensures Run(c, steps) && Enabled(c, End(c, steps), HConsume)
    ensures
      var s := End(c, steps);
      s.turn - s.actions[s.consumed].turn
      == Count(steps, FORCES) + Count(steps, NUDGES) == rounds * Advances(c)
  {
    steps := SilentRounds(c, rounds);
    steps := Extend(c, INITIAL, steps, AAppend(["UP"]));
    steps := Extend(c, INITIAL, steps, HBeginWait);
    AdvancesOf(c, steps);
  }
}
