/**
 The file-IPC turn protocol between the game harness and the solver agent.

 Two actors share two append-only logs: `states.jsonl` (written by the harness) and `actions.jsonl` (written by the
 agent). The agent's read of the newest state, its duplicate check and its append are three separate steps, and so are
 the two reads of the WAIT postcondition, so harness steps may fall between any of them.

 A run is a sequence of step labels. `Enabled` says when a label may be taken, `Apply` what it does; the theorems hold
 of every run that takes only enabled labels.
 */
module TurnProtocol {
  import opened Options

  /** One line of actions.jsonl. */
  datatype Batch = Batch(turn: nat, actions: seq<string>, truncatedFrom: Option<nat>)

  /** One line of states.jsonl: the fields the agent's protocol decisions depend on. */
  datatype StateLine = StateLine(turn: nat, won: bool)

  /** Where the harness is. `Head` is between two rounds of the main loop, `Wait1` the quiet wait before the reminder,
      `Wait2` the wait up to the agent-turn timeout, `Wait3` the fallback window after the URGENT nudge. */
  datatype HarnessPc = Boot | Head | Wait1 | Wait2 | Wait3 | Executing(forced: bool) | Stopped {
    predicate Waiting() {
      Wait1? || Wait2? || Wait3?
    }
  }

  /** Where the agent is. `Idle(seen)` is a turn that ended in an accepted WAIT whose postcondition had read the first
      `seen` state lines; `Idle(0)` is an agent that has not answered any state. */
  datatype AgentPc =
    | Idle(seen: nat)
    | Thinking
    | StateRead(turn: nat)
    | DuplicateChecked(turn: nat)
    | WaitStateRead(turn: nat, seen: nat)
    | Finished

  /** `reminder`: the ladder has a reminder rung below the agent-turn timeout. `agentCap`: the agent's per-turn cap. */
  datatype Config = Config(reminder: bool, agentCap: int)

  /** `missed`: the read the harness is blocked in has looked at the action log and found no complete line. It looks before
      it looks at the clock, so it cannot time out before that. */
  datatype State = State(
    states: seq<StateLine>,
    actions: seq<Batch>,
    turn: nat,
    pc: HarnessPc,
    missed: bool,
    consumed: nat,
    forced: nat,
    nudges: nat,
    agent: AgentPc,
    delivered: nat)

  datatype Step =
    | HStart
    | HBeginWait
    | HConsume
    | HMiss
    | HRemind
    | HUrge
    | HForce
    | HFinish(won: bool)
    | HStop
    | AWake(upTo: nat)
    | AMessage
    | ARead
    | ACheck
    | AAppend(requested: seq<string>)
    | AWaitRead
    | AWaitCheck
    | ADone
  {
    predicate ByAgent() {
      AWake? || AMessage? || ARead? || ACheck? || AAppend? || AWaitRead? || AWaitCheck? || ADone?
    }
  }

  const INITIAL := State([], [], 0, Boot, false, 0, 0, 0, Idle(0), 0)

  /** `_latest_state`: the newest line of states.jsonl. */
  function LatestState(s: State): Option<StateLine> {
    if s.states == [] then None else Some(s.states[|s.states| - 1])
  }

  /** `_last_submitted_turn`: the turn of the newest line of actions.jsonl. */
  function LastSubmitted(s: State): Option<nat> {
    if s.actions == [] then None else Some(s.actions[|s.actions| - 1].turn)
  }

  predicate Enabled(c: Config, s: State, step: Step) {
    match step
    case HStart => s.pc.Boot?
    case HBeginWait => s.pc.Head?
    case HConsume => s.pc.Waiting() && s.consumed < |s.actions|
    case HMiss => s.pc.Waiting() && s.consumed == |s.actions|
    case HRemind => s.pc.Wait1? && s.missed
    case HUrge => s.pc.Wait2? && s.missed
    case HForce => s.pc.Wait3? && s.missed
    case HFinish(_) => s.pc.Executing?
    case HStop => s.pc.Head?
    case AWake(upTo) => s.agent.Idle? && s.delivered < upTo <= |s.states|
    case AMessage => s.agent.Idle?
    case ARead => s.agent.Thinking?
    case ACheck => s.agent.StateRead?
    case AAppend(requested) => s.agent.DuplicateChecked? && requested != []
    case AWaitRead => s.agent.Thinking?
    case AWaitCheck => s.agent.WaitStateRead?
    case ADone => s.agent.Thinking?
  }

  /** The entry `submit_actions` writes: an oversized batch keeps its first `cap` actions and says how many there were. */
  function Entry(c: Config, turn: nat, requested: seq<string>): Batch {
    if 0 < c.agentCap < |requested|
    then Batch(turn, requested[..c.agentCap], Some(|requested|))
    else Batch(turn, requested, None)
  }

  function Publish(s: State, turn: nat, won: bool): State {
    s.(turn := turn, states := s.states + [StateLine(turn, won)])
  }

  function Apply(c: Config, s: State, step: Step): State
    requires Enabled(c, s, step)
  {
    match step
    case HStart => Publish(s, 0, false).(pc := Head)
    case HBeginWait => s.(pc := if c.reminder then Wait1 else Wait2, missed := false)
    case HConsume => s.(consumed := s.consumed + 1, pc := Executing(false), missed := false)
    case HMiss => s.(missed := true)
    case HRemind => Publish(s, s.turn + 1, false).(nudges := s.nudges + 1, pc := Wait2, missed := false)
    case HUrge => Publish(s, s.turn + 1, false).(nudges := s.nudges + 1, pc := Wait3, missed := false)
    case HForce => s.(forced := s.forced + 1, pc := Executing(true), missed := false)
    case HFinish(won) => Publish(s, s.turn + 1, won).(pc := if won then Stopped else Head)
    case HStop => Publish(s, s.turn, false).(pc := Stopped)
    case AWake(upTo) => s.(delivered := upTo, agent := Thinking)
    case AMessage => s.(agent := Thinking)
    case ARead => (
      match LatestState(s)
      case None => s
      case Some(line) => if line.won then s else s.(agent := StateRead(line.turn)))
    case ACheck => s.(agent := if LastSubmitted(s) == Some(s.agent.turn) then Thinking else DuplicateChecked(s.agent.turn))
    case AAppend(requested) => s.(actions := s.actions + [Entry(c, s.agent.turn, requested)], agent := Thinking)
    case AWaitRead => (
      match LatestState(s)
      case None => s.(agent := Idle(0))
      case Some(line) => s.(agent := WaitStateRead(line.turn, |s.states|)))
    case AWaitCheck => s.(agent := if LastSubmitted(s) == Some(s.agent.turn) then Idle(s.agent.seen) else Thinking)
    case ADone => s.(agent := Finished)
  }

  /** Every label of the run is enabled when it is taken. */
  predicate ValidFrom(c: Config, s: State, steps: seq<Step>)
    decreases |steps|
  {
    steps == [] || (Enabled(c, s, steps[0]) && ValidFrom(c, Apply(c, s, steps[0]), steps[1..]))
  }

  function Final(c: Config, s: State, steps: seq<Step>): State
    requires ValidFrom(c, s, steps)
    decreases |steps|
  {
    if steps == [] then s else Final(c, Apply(c, s, steps[0]), steps[1..])
  }

  // ---------------------------------------------------------------------------------------------------- invariant

  /** `states[i].turn = i`, except that the closing line of a stopped run repeats the last turn. */
  ghost predicate LinesNumbered(s: State) {
    && (s.pc.Boot? ==> s.states == [] && s.turn == 0)
    && (!s.pc.Boot? && !s.pc.Stopped? ==> |s.states| == s.turn + 1)
    && (s.pc.Stopped? ==> s.turn + 1 <= |s.states| <= s.turn + 2)
    && (forall i :: 0 <= i < |s.states| && i <= s.turn ==> s.states[i].turn == i)
    && (forall i :: s.turn < i < |s.states| ==> s.states[i].turn == s.turn)
  }

  ghost predicate StrictlyIncreasing(batches: seq<Batch>) {
    forall i, j :: 0 <= i < j < |batches| ==> batches[i].turn < batches[j].turn
  }

  ghost predicate SubmittedUpTo(s: State, bound: nat) {
    forall i :: 0 <= i < |s.actions| ==> s.actions[i].turn <= bound
  }

  /** A batch being executed may carry the current turn; at every other point all consumed batches are older. */
  ghost predicate ConsumedIsOld(s: State) {
    && s.consumed <= |s.actions|
    && forall i :: 0 <= i < s.consumed ==>
         s.actions[i].turn < s.turn + (if s.pc == Executing(false) then 1 else 0)
  }

  ghost predicate TurnsAccounted(s: State) {
    s.consumed + s.forced + s.nudges == s.turn + (if s.pc.Executing? then 1 else 0)
  }

  ghost predicate Answered(s: State, seen: nat) {
    0 < seen <= |s.states| && s.delivered <= seen && LastSubmitted(s) == Some(s.states[seen - 1].turn)
  }

  ghost predicate AgentConsistent(s: State) {
    && s.delivered <= |s.states|
    && match s.agent
       case Idle(seen) => (seen == 0 && s.delivered == 0) || Answered(s, seen)
       case StateRead(turn) => turn <= s.turn && SubmittedUpTo(s, turn) && s.states != []
       case DuplicateChecked(turn) =>
         turn <= s.turn && (forall i :: 0 <= i < |s.actions| ==> s.actions[i].turn < turn) && s.states != []
       case WaitStateRead(turn, seen) => 0 < seen <= |s.states| && s.delivered <= seen && s.states[seen - 1].turn == turn
       case _ => true
  }

  ghost predicate WellFormed(c: Config, b: Batch) {
    && b.actions != []
    && (c.agentCap > 0 ==> |b.actions| <= c.agentCap)
    && (b.truncatedFrom.Some? ==> c.agentCap == |b.actions| < b.truncatedFrom.value)
  }

  ghost predicate Inv(c: Config, s: State) {
    && LinesNumbered(s)
    && StrictlyIncreasing(s.actions)
    && SubmittedUpTo(s, s.turn)
    && ConsumedIsOld(s)
    && TurnsAccounted(s)
    && AgentConsistent(s)
    && (forall i :: 0 <= i < |s.actions| ==> WellFormed(c, s.actions[i]))
    && (s.states == [] ==> s.actions == [])
  }

  lemma LatestIsCurrent(s: State)
    requires LinesNumbered(s) && s.states != []
    ensures LatestState(s).value.turn == s.turn
  {
  }

  lemma StepKeepsLines(c: Config, s: State, step: Step)
    requires Inv(c, s) && Enabled(c, s, step)
    ensures LinesNumbered(Apply(c, s, step))
  {
  }

  /** An append carries the turn of the newest state, which no earlier batch has: the log stays strictly increasing. */
  lemma StepKeepsLog(c: Config, s: State, step: Step)
    requires Inv(c, s) && Enabled(c, s, step)
    ensures
      var s' := Apply(c, s, step);
      && StrictlyIncreasing(s'.actions)
      && SubmittedUpTo(s', s'.turn)
      && (forall i :: 0 <= i < |s'.actions| ==> WellFormed(c, s'.actions[i]))
      && (s'.states == [] ==> s'.actions == [])
  {
    if step.AAppend? {
      var entry := Entry(c, s.agent.turn, step.requested);
      assert WellFormed(c, entry);
      assert Apply(c, s, step).actions == s.actions + [entry];
    } else {
      assert Apply(c, s, step).actions == s.actions;
    }
  }

  lemma StepKeepsConsumed(c: Config, s: State, step: Step)
    requires Inv(c, s) && Enabled(c, s, step)
    ensures ConsumedIsOld(Apply(c, s, step)) && TurnsAccounted(Apply(c, s, step))
  {
    var s' := Apply(c, s, step);
    if step.AAppend? {
      assert s'.actions == s.actions + [Entry(c, s.agent.turn, step.requested)];
    } else {
      assert s'.actions == s.actions;
    }
  }

  /** Harness steps leave the agent's view intact: its reads stay true of the longer state log. */
  lemma AgentIsStable(s: State, s': State)
    requires AgentConsistent(s)
    requires s'.agent == s.agent && s'.actions == s.actions && s'.delivered == s.delivered
    requires s.states <= s'.states && s.turn <= s'.turn
    ensures AgentConsistent(s')
  {
    match s.agent
    case Idle(seen) =>
      if Answered(s, seen) { assert s'.states[seen - 1] == s.states[seen - 1]; }
    case WaitStateRead(turn, seen) =>
      assert s'.states[seen - 1] == s.states[seen - 1];
    case _ =>
  }

  lemma DuplicateCheckIsSound(s: State, turn: nat)
    requires StrictlyIncreasing(s.actions) && SubmittedUpTo(s, turn) && LastSubmitted(s) != Some(turn)
    ensures forall i :: 0 <= i < |s.actions| ==> s.actions[i].turn < turn
  {
    if s.actions != [] {
      var last := |s.actions| - 1;
      assert s.actions[last].turn < turn;
      forall i | 0 <= i < |s.actions| ensures s.actions[i].turn < turn {
        if i < last { assert s.actions[i].turn < s.actions[last].turn; }
      }
    }
  }

  lemma AgentStepKeepsAgent(c: Config, s: State, step: Step)
    requires Inv(c, s) && Enabled(c, s, step) && step.ByAgent()
    ensures AgentConsistent(Apply(c, s, step))
  {
    match step
    case ARead =>
      if s.states != [] { LatestIsCurrent(s); }
    case ACheck =>
      if LastSubmitted(s) != Some(s.agent.turn) { DuplicateCheckIsSound(s, s.agent.turn); }
    case _ =>
  }

  lemma StepKeepsAgent(c: Config, s: State, step: Step)
    requires Inv(c, s) && Enabled(c, s, step)
    ensures AgentConsistent(Apply(c, s, step))
  {
    if step.ByAgent() {
      AgentStepKeepsAgent(c, s, step);
    } else {
      AgentIsStable(s, Apply(c, s, step));
    }
  }

  lemma StepKeepsInv(c: Config, s: State, step: Step)
    requires Inv(c, s) && Enabled(c, s, step)
    ensures Inv(c, Apply(c, s, step))
  {
    StepKeepsLines(c, s, step);
    StepKeepsLog(c, s, step);
    StepKeepsConsumed(c, s, step);
    StepKeepsAgent(c, s, step);
  }

  /** Every state of every run satisfies the invariant. */
  lemma {:induction false} RunKeepsInv(c: Config, s: State, steps: seq<Step>)
    requires Inv(c, s) && ValidFrom(c, s, steps)
    ensures Inv(c, Final(c, s, steps))
    decreases |steps|
  {
    if steps != [] {
      StepKeepsInv(c, s, steps[0]);
      RunKeepsInv(c, Apply(c, s, steps[0]), steps[1..]);
    }
  }
}
