/**
 The statistics folded from a game's events, field by field: what every event does with fields that are missing, that do not
 convert to numbers, or that are no numbers at all, and when the per-model token counts add up to the game totals.
 */
module ViewerEvents {
  import opened Options
  import opened ViewerStats
  import opened ActionReader
  import opened JsonLines
  import opened ViewerTail
  import Rhae

  // ---------------------------------------------------------------------------------------------------------- fields

  datatype Float = Finite(value: real) | NotFinite

  /** A field of an event, as far as `int`, `float` and the truth value tell it apart. Text comes with the numbers it spells,
      if any; a container is a non-empty list or object. */
  datatype Json =
    | Absent
    | Falsy
    | Number(value: real)
    | Infinite
    | NotANumber
    | Text(asInt: Option<int>, asFloat: Option<Float>)
    | Container

  /** What `update` raises: nothing, a ValueError, which the caller catches, or something it does not catch. */
  datatype Fault = NoFault | Caught | Escaping

  datatype Converted = Int(n: int) | Raised(fault: Fault)

  /** Towards zero. */
  function Trunc(x: real): int {
    if x >= 0.0 then x.Floor else -((-x).Floor)
  }

  /** `int(ev.get(field, default) or default)`. */
  function ToInt(j: Json, default: int): Converted {
    match j
    case Absent => Int(default)
    case Falsy => Int(default)
    case Number(value) => Int(Trunc(value))
    case Infinite => Raised(Escaping)
    case NotANumber => Raised(Caught)
    case Text(asInt, _) => if asInt.Some? then Int(asInt.value) else Raised(Caught)
    case Container => Raised(Escaping)
  }

  function IntFault(j: Json): Fault {
    var c := ToInt(j, 0);
    if c.Int? then NoFault else c.fault
  }

  function IntOf(j: Json): int {
    var c := ToInt(j, 0);
    if c.Int? then c.n else 0
  }

  /** `float(ev.get(field, 0) or 0)`. */
  function FloatFault(j: Json): Fault {
    match j
    case Text(_, asFloat) => if asFloat.Some? then NoFault else Caught
    case Container => Escaping
    case _ => NoFault
  }

  function FloatOf(j: Json): Float {
    match j
    case Number(value) => Finite(value)
    case Infinite => NotFinite
    case NotANumber => NotFinite
    case Text(_, asFloat) => if asFloat.Some? then asFloat.value else NotFinite
    case _ => Finite(0.0)
  }

  /** `ev.get("level", n) or 0`, which takes a falsy level for 0 and a missing one for n. */
  function ToLevel(j: Json, n: nat): Converted {
    if j.Absent? then Int(n) else ToInt(j, 0)
  }

  // ---------------------------------------------------------------------------------------------------------- events

  /** The pricing key of a model; none when the agent id cannot be a key or the model is no text. */
  datatype Model = Key(name: string) | NoKey

  datatype Baselines = Unknown | Known(baselines: seq<int>) | NotIterable

  datatype Event =
    | LlmCall(
        input: Json, output: Json, reasoning: Json, cacheRead: Json, tools: Json, blocks: Json, model: Model,
        cacheCreation: Json)
    | ReplExecute(success: bool)
    | RoundComplete(total: Json, llm: Json, repl: Json, compaction: Json)
    | StepComplete(wallTime: Json)
    | LevelScored(aiActions: Json, baseline: Json, score: Json, level: Json)
    | SolverStart(baselines: Baselines, maxSteps: Json)
    | EnvStep(step: Json, levels: Json, acted: bool)
    | NotAnObject
    | OtherEvent

  datatype Stats = Stats(
    llmCalls: nat,
    inputTokens: int,
    outputTokens: int,
    reasoning: int,
    cacheRead: int,
    toolCalls: int,
    pythonBlocks: int,
    replTotal: nat,
    replSuccess: nat,
    rounds: nat,
    completedSteps: nat,
    step: int,
    level: int,
    actionsThisLevel: nat,
    maxSteps: int,
    baselines: seq<int>,
    modelTokens: ModelTokens,
    levelScores: seq<Float>,
    aiActions: seq<int>)

  const NO_STATS := Stats(0, 0, 0, 0, 0, 0, 0, 0, 0, 0, 0, 0, 0, 0, 0, [], map[], [], [])

  /** The statistics when `update` returns or raises. */
  datatype Updated = Updated(stats: Stats, fault: Fault)

  /** The faults of an event's fields, in the order in which `update` reads them. */
  function Faults(s: Stats, e: Event): seq<Fault> {
    match e
    case LlmCall(input, output, reasoning, cacheRead, tools, blocks, model, cacheCreation) =>
      [IntFault(input), IntFault(output), IntFault(reasoning), IntFault(cacheRead), IntFault(tools), IntFault(blocks),
       if model.Key? then NoFault else Escaping, IntFault(cacheCreation)]
    case RoundComplete(total, llm, repl, compaction) =>
      [FloatFault(total), FloatFault(llm), FloatFault(repl), FloatFault(compaction)]
    case StepComplete(wallTime) => [FloatFault(wallTime)]
    case LevelScored(aiActions, baseline, score, level) =>
      [IntFault(aiActions), IntFault(baseline),
       if IntOf(baseline) != 0 && IntOf(aiActions) != 0 then NoFault else FloatFault(score),
       IntFault(level), IndexFault(s, level)]
    case SolverStart(baselines, maxSteps) => [if baselines.NotIterable? then Escaping else NoFault, IntFault(maxSteps)]
    case EnvStep(step, levels, _) => [IntFault(step), IntFault(levels)]
    case NotAnObject => [Escaping]
    case _ => []
  }

  /** A negative level counts from the end of the list. */
  function IndexFault(s: Stats, level: Json): Fault {
    var c := ToLevel(level, |s.levelScores|);
    if c.Int? && c.n + |s.levelScores| < 0 then Escaping else NoFault
  }

  /** How many fields are read before the first that raises. */
  function FirstFault(faults: seq<Fault>): (k: nat)
    ensures k <= |faults| && (k < |faults| ==> faults[k] != NoFault)
    ensures forall i :: 0 <= i < k ==> faults[i] == NoFault
  {
    if faults == [] || faults[0] != NoFault then 0 else 1 + FirstFault(faults[1..])
  }

  /** The first fault, if any. */
  function FirstOf(faults: seq<Fault>): Fault {
    var k := FirstFault(faults);
    if k < |faults| then faults[k] else NoFault
  }

  function FaultOf(s: Stats, e: Event): Fault {
    FirstOf(Faults(s, e))
  }

  /** An exception leaves `update` that its caller does not catch: the first field that raises is of a wrong type. */
  ghost predicate Escapes(s: Stats, e: Event) {
    exists k :: 0 <= k < |Faults(s, e)| && Faults(s, e)[k] == Escaping && forall i :: 0 <= i < k ==> Faults(s, e)[i] == NoFault
  }

  lemma EscapesIff(s: Stats, e: Event)
    ensures FaultOf(s, e) == Escaping <==> Escapes(s, e)
  {
    var faults := Faults(s, e);
    hide Faults, FirstFault;
    forall j | 0 <= j < |faults| && faults[j] == Escaping && (forall i :: 0 <= i < j ==> faults[i] == NoFault)
      ensures FirstFault(faults) == j {
      FirstFaultIs(faults, j);
    }
  }

  lemma {:induction false} FirstFaultIs(faults: seq<Fault>, j: nat)
    requires j < |faults| && faults[j] != NoFault && forall i :: 0 <= i < j ==> faults[i] == NoFault
    ensures FirstFault(faults) == j
  {
    if j > 0 { FirstFaultIs(faults[1..], j - 1); }
  }

  // ---------------------------------------------------------------------------------------------------------- update

  /** `s[i] = x` on a list that is first padded up to index i. */
  function SetPadded<T>(s: seq<T>, i: nat, x: T, pad: T): seq<T> {
    if i < |s| then s[i := x] else s + seq(i - |s|, _ => pad) + [x]
  }

  function StoreAt<T>(s: seq<T>, i: int, x: T, pad: T): seq<T> {
    if i >= 0 then SetPadded(s, i, x, pad) else if i + |s| >= 0 then s[i + |s| := x] else s
  }

  function Counted(s: Stats, model: string, t: Tokens): ModelTokens {
    s.modelTokens[model := TokensOf(s.modelTokens, model).Plus(t)]
  }

  /** An `llm_call` of which the first `read` fields have converted. */
  function CountCall(s: Stats, e: Event, read: nat): Stats
    requires e.LlmCall?
  {
    s.(llmCalls := s.llmCalls + (if read >= 2 then 1 else 0),
       inputTokens := s.inputTokens + (if read >= 2 then IntOf(e.input) else 0),
       outputTokens := s.outputTokens + (if read >= 2 then IntOf(e.output) else 0),
       reasoning := s.reasoning + (if read >= 3 then IntOf(e.reasoning) else 0),
       cacheRead := s.cacheRead + (if read >= 4 then IntOf(e.cacheRead) else 0),
       toolCalls := s.toolCalls + (if read >= 5 then IntOf(e.tools) else 0),
       pythonBlocks := s.pythonBlocks + (if read >= 6 then IntOf(e.blocks) else 0),
       modelTokens :=
         if read < 7 || e.model.NoKey? then s.modelTokens
         else
           Counted(s, e.model.name, Tokens(
             IntOf(e.input), IntOf(e.output), IntOf(e.cacheRead), if read >= 8 then IntOf(e.cacheCreation) else 0)))
  }

  function ScoreLevel(s: Stats, e: Event): Stats
    requires e.LevelScored?
  {
    var (ai, baseline) := (IntOf(e.aiActions), IntOf(e.baseline));
    var score := if baseline != 0 && ai != 0 then Finite(Rhae.LevelScore(baseline, ai)) else FloatOf(e.score);
    var level := ToLevel(e.level, |s.levelScores|);
    if level.Raised? then s
    else
      s.(levelScores := StoreAt(s.levelScores, level.n, score, Finite(0.0)),
         aiActions := StoreAt(s.aiActions, level.n, ai, 0))
  }

  function IntOr(j: Json, default: int): int {
    var c := ToInt(j, default);
    if c.Int? then c.n else default
  }

  function StepEnv(s: Stats, e: Event, read: nat): Stats
    requires e.EnvStep?
  {
    if read == 0 then s
    else
      var stepped := s.(step := IntOr(e.step, s.step));
      if read == 1 then stepped
      else
        var level := IntOr(e.levels, s.level);
        stepped.(
          level := level,
          actionsThisLevel := if level > s.level then 0 else s.actionsThisLevel + if e.acted then 1 else 0)
  }

  /** `update`. */
  function Update(s: Stats, e: Event): Updated {
    var read := FirstFault(Faults(s, e));
    var stats :=
      match e
      case LlmCall(_, _, _, _, _, _, _, _) => CountCall(s, e, read)
      case ReplExecute(success) =>
        s.(replTotal := s.replTotal + 1, replSuccess := s.replSuccess + (if success then 1 else 0))
      case RoundComplete(_, _, _, _) => s.(rounds := s.rounds + 1)
      case StepComplete(_) => s.(completedSteps := s.completedSteps + 1)
      case LevelScored(_, _, _, _) => if read == 5 then ScoreLevel(s, e) else s
      case SolverStart(baselines, maxSteps) => (
        var known := if read >= 1 && baselines.Known? then s.(baselines := baselines.baselines) else s;
        if read >= 2 then known.(maxSteps := IntOr(maxSteps, s.maxSteps)) else known)
      case EnvStep(_, _, _) => StepEnv(s, e, read)
      case _ => s;
    Updated(stats, FaultOf(s, e))
  }

  // ------------------------------------------------------------------------------------------------------ conservation

  ghost predicate Conserved(s: Stats) {
    && TokenTotal(s.modelTokens, INPUT) == s.inputTokens as real
    && TokenTotal(s.modelTokens, OUTPUT) == s.outputTokens as real
    && TokenTotal(s.modelTokens, CACHE) == s.cacheRead as real
  }

  ghost predicate Sound(s: Stats) {
    s.replSuccess <= s.replTotal && |s.levelScores| == |s.aiActions|
  }

  /** The totals are ahead of the per-model counts by this much. */
  ghost predicate AheadBy(s: Stats, input: int, output: int, cache: int) {
    && TokenTotal(s.modelTokens, INPUT) + input as real == s.inputTokens as real
    && TokenTotal(s.modelTokens, OUTPUT) + output as real == s.outputTokens as real
    && TokenTotal(s.modelTokens, CACHE) + cache as real == s.cacheRead as real
  }

  /** The fields of an `llm_call` that convert before one that raises; the statistics do not matter. */
  function Read(e: Event): nat
    requires e.LlmCall?
  {
    FirstFault(Faults(NO_STATS, e))
  }

  /** The input and output tokens convert and count, and one of the fields before the model's counts raises. */
  function Half(e: Event): bool {
    e.LlmCall? && 2 <= Read(e) < 7
  }

  /** So do the cache tokens. */
  function HalfCached(e: Event): bool {
    e.LlmCall? && 4 <= Read(e) < 7
  }

  function LostInput(events: seq<Event>): int {
    if events == [] then 0 else (if Half(events[0]) then IntOf(events[0].input) else 0) + LostInput(events[1..])
  }

  function LostOutput(events: seq<Event>): int {
    if events == [] then 0 else (if Half(events[0]) then IntOf(events[0].output) else 0) + LostOutput(events[1..])
  }

  function LostCache(events: seq<Event>): int {
    if events == [] then 0 else (if HalfCached(events[0]) then IntOf(events[0].cacheRead) else 0) + LostCache(events[1..])
  }

  lemma LostByOne(e: Event)
    ensures LostInput([e]) == if Half(e) then IntOf(e.input) else 0
    ensures LostOutput([e]) == if Half(e) then IntOf(e.output) else 0
    ensures LostCache([e]) == if HalfCached(e) then IntOf(e.cacheRead) else 0
  {
    assert [e][1..] == [];
  }

  lemma CallIsAhead(s: Stats, e: Event, input: int, output: int, cache: int)
    requires AheadBy(s, input, output, cache) && e.LlmCall?
    ensures AheadBy(
              CountCall(s, e, Read(e)), input + LostInput([e]), output + LostOutput([e]), cache + LostCache([e]))
  {
    hide TokenTotal, TokensOf, IntOf;
    LostByOne(e);
    var read := Read(e);
    if read >= 7 {
      KeyHasConverted(e);
      var t := TokensOf(s.modelTokens, e.model.name).Plus(
        Tokens(IntOf(e.input), IntOf(e.output), IntOf(e.cacheRead), if read >= 8 then IntOf(e.cacheCreation) else 0));
      TotalOfUpdated(s.modelTokens, e.model.name, t, INPUT);
      TotalOfUpdated(s.modelTokens, e.model.name, t, OUTPUT);
      TotalOfUpdated(s.modelTokens, e.model.name, t, CACHE);
    }
  }

  lemma KeyHasConverted(e: Event)
    requires e.LlmCall?
    ensures Read(e) >= 7 ==> e.model.Key?
    ensures Read(e) <= 8
  {
    assert Read(e) >= 7 ==> Faults(NO_STATS, e)[6] == NoFault;
  }

  lemma UpdateIsAhead(s: Stats, e: Event, input: int, output: int, cache: int)
    requires AheadBy(s, input, output, cache) && Sound(s)
    ensures
      var after := Update(s, e).stats;
      && Sound(after)
      && AheadBy(after, input + LostInput([e]), output + LostOutput([e]), cache + LostCache([e]))
  {
    hide TokenTotal;
    LostByOne(e);
    if e.LlmCall? { CallIsAhead(s, e, input, output, cache); }
  }

  /** The fold of a whole list of events, whatever they raise. */
  function UpdateAll(s: Stats, events: seq<Event>): Stats
    decreases |events|
  {
    if events == [] then s else UpdateAll(Update(s, events[0]).stats, events[1..])
  }

  lemma LostSplits(events: seq<Event>)
    ensures events == [] ==> LostInput(events) == LostOutput(events) == LostCache(events) == 0
    ensures events != [] ==>
              && LostInput(events) == LostInput([events[0]]) + LostInput(events[1..])
              && LostOutput(events) == LostOutput([events[0]]) + LostOutput(events[1..])
              && LostCache(events) == LostCache([events[0]]) + LostCache(events[1..])
  {
    if events != [] { LostByOne(events[0]); }
  }

  lemma {:induction false} EventsAreAhead(s: Stats, events: seq<Event>, input: int, output: int, cache: int)
    requires AheadBy(s, input, output, cache) && Sound(s)
    ensures Sound(UpdateAll(s, events))
    ensures AheadBy(
              UpdateAll(s, events), input + LostInput(events), output + LostOutput(events), cache + LostCache(events))
    decreases |events|
  {
    hide *;
    LostSplits(events);
    UpdateAllSplits(s, events);
    if events != [] {
      var e, rest := events[0], events[1..];
      UpdateIsAhead(s, e, input, output, cache);
      var i, o, c := input + LostInput([e]), output + LostOutput([e]), cache + LostCache([e]);
      EventsAreAhead(Update(s, e).stats, rest, i, o, c);
      assert i + LostInput(rest) == input + LostInput(events);
      assert o + LostOutput(rest) == output + LostOutput(events);
      assert c + LostCache(rest) == cache + LostCache(events);
    }
  }

  lemma UpdateAllSplits(s: Stats, events: seq<Event>)
    ensures UpdateAll(s, events) == if events == [] then s else UpdateAll(Update(s, events[0]).stats, events[1..])
  {}

  lemma StartIsConserved()
    ensures AheadBy(NO_STATS, 0, 0, 0) && Sound(NO_STATS)
  {
  }

  /** After any events, from their raw fields: the per-model input, output and cache counts sum to the game totals if and only
      if the tokens of the `llm_call`s that raise between the totals and the model's counts sum to nothing. */
  lemma TokensAreConservedIff(events: seq<Event>)
    ensures
      var s := UpdateAll(NO_STATS, events);
      && Sound(s)
      && (Conserved(s) <==> LostInput(events) == 0 && LostOutput(events) == 0 && LostCache(events) == 0)
  {
    hide Half, HalfCached, Update, TokenTotal, LostInput, LostOutput, LostCache, UpdateAll;
    StartIsConserved();
    EventsAreAhead(NO_STATS, events, 0, 0, 0);
  }

  /** In particular when every `llm_call` has only numbers and a model. */
  lemma TokensAreConserved(events: seq<Event>)
    requires forall i :: 0 <= i < |events| ==> !Half(events[i])
    ensures Conserved(UpdateAll(NO_STATS, events))
  {
    NothingIsLost(events);
    TokensAreConservedIff(events);
  }

  lemma {:induction false} NothingIsLost(events: seq<Event>)
    requires forall i :: 0 <= i < |events| ==> !Half(events[i])
    ensures LostInput(events) == 0 && LostOutput(events) == 0 && LostCache(events) == 0
  {
    if events != [] {
      assert !Half(events[0]);
      NothingIsLost(events[1..]);
    }
  }

  /** For instance: 5 input tokens and a list for the reasoning tokens. */
  lemma ListForNumberLosesTokens()
    ensures
      var five := Number(5.0);
      var e := LlmCall(five, Falsy, Container, Absent, Absent, Absent, Key("opus"), Absent);
      !Conserved(UpdateAll(NO_STATS, [e])) && Escapes(NO_STATS, e)
  {
    var e := LlmCall(Number(5.0), Falsy, Container, Absent, Absent, Absent, Key("opus"), Absent);
    var faults := Faults(NO_STATS, e);
    assert faults[0] == NoFault && faults[1] == NoFault && faults[2] == Escaping;
    assert Read(e) == 2;
    LostByOne(e);
    TokensAreConservedIff([e]);
  }

  // ------------------------------------------------------------------------------------------------------- the counters

  ghost function SumOf(events: seq<Event>, weight: Event -> int): int {
    if events == [] then 0 else weight(events[0]) + SumOf(events[1..], weight)
  }

  /** A call counts in a total if the fields up to the total's own have converted. */
  ghost function InCall(read: nat, value: Event -> int): Event -> int {
    (e: Event) => if e.LlmCall? && Read(e) >= read then value(e) else 0
  }

  ghost const ONE := (e: Event) => 1
  ghost const INPUTS := (e: Event) => if e.LlmCall? then IntOf(e.input) else 0
  ghost const OUTPUTS := (e: Event) => if e.LlmCall? then IntOf(e.output) else 0
  ghost const REASONING := (e: Event) => if e.LlmCall? then IntOf(e.reasoning) else 0
  ghost const CACHED := (e: Event) => if e.LlmCall? then IntOf(e.cacheRead) else 0
  ghost const CREATED := (e: Event) => if e.LlmCall? then IntOf(e.cacheCreation) else 0
  ghost const TOOLS := (e: Event) => if e.LlmCall? then IntOf(e.tools) else 0
  ghost const BLOCKS := (e: Event) => if e.LlmCall? then IntOf(e.blocks) else 0
  ghost const REPLS := (e: Event) => if e.ReplExecute? then 1 else 0
  ghost const SUCCESSES := (e: Event) => if e.ReplExecute? && e.success then 1 else 0
  ghost const ROUNDS := (e: Event) => if e.RoundComplete? then 1 else 0
  ghost const STEPS := (e: Event) => if e.StepComplete? then 1 else 0

  /** Every counter has grown by the sum of its own field, or the number of its own events. */
  ghost predicate CountersGrowBy(s: Stats, after: Stats, events: seq<Event>) {
    && after.llmCalls == s.llmCalls + SumOf(events, InCall(2, ONE))
    && after.inputTokens == s.inputTokens + SumOf(events, InCall(2, INPUTS))
    && after.outputTokens == s.outputTokens + SumOf(events, InCall(2, OUTPUTS))
    && after.reasoning == s.reasoning + SumOf(events, InCall(3, REASONING))
    && after.cacheRead == s.cacheRead + SumOf(events, InCall(4, CACHED))
    && after.toolCalls == s.toolCalls + SumOf(events, InCall(5, TOOLS))
    && after.pythonBlocks == s.pythonBlocks + SumOf(events, InCall(6, BLOCKS))
    && after.replTotal == s.replTotal + SumOf(events, REPLS)
    && after.replSuccess == s.replSuccess + SumOf(events, SUCCESSES)
    && after.rounds == s.rounds + SumOf(events, ROUNDS)
    && after.completedSteps == s.completedSteps + SumOf(events, STEPS)
  }

  lemma SumOfOne(e: Event, weight: Event -> int)
    ensures SumOf([e], weight) == weight(e)
  {
    assert [e][1..] == [];
    assert SumOf([], weight) == 0;
  }

  lemma SumSplits(events: seq<Event>, weight: Event -> int)
    ensures SumOf(events, weight) ==
            if events == [] then 0 else SumOf([events[0]], weight) + SumOf(events[1..], weight)
  {
    if events != [] { SumOfOne(events[0], weight); }
  }

  lemma SameRead(s: Stats, e: Event)
    requires e.LlmCall?
    ensures Update(s, e).stats == CountCall(s, e, Read(e))
  {
    assert Faults(s, e) == Faults(NO_STATS, e);
  }

  lemma EachOnce(e: Event)
    ensures SumOf([e], InCall(2, ONE)) == InCall(2, ONE)(e)
    ensures SumOf([e], InCall(2, INPUTS)) == InCall(2, INPUTS)(e)
    ensures SumOf([e], InCall(2, OUTPUTS)) == InCall(2, OUTPUTS)(e)
    ensures SumOf([e], InCall(3, REASONING)) == InCall(3, REASONING)(e)
    ensures SumOf([e], InCall(4, CACHED)) == InCall(4, CACHED)(e)
    ensures SumOf([e], InCall(5, TOOLS)) == InCall(5, TOOLS)(e)
    ensures SumOf([e], InCall(6, BLOCKS)) == InCall(6, BLOCKS)(e)
    ensures SumOf([e], REPLS) == REPLS(e) && SumOf([e], SUCCESSES) == SUCCESSES(e)
    ensures SumOf([e], ROUNDS) == ROUNDS(e) && SumOf([e], STEPS) == STEPS(e)
  {
    SumOfOne(e, InCall(2, ONE));
    SumOfOne(e, InCall(2, INPUTS));
    SumOfOne(e, InCall(2, OUTPUTS));
    SumOfOne(e, InCall(3, REASONING));
    SumOfOne(e, InCall(4, CACHED));
    SumOfOne(e, InCall(5, TOOLS));
    SumOfOne(e, InCall(6, BLOCKS));
    SumOfOne(e, REPLS);
    SumOfOne(e, SUCCESSES);
    SumOfOne(e, ROUNDS);
    SumOfOne(e, STEPS);
  }

  lemma CallCounts(s: Stats, e: Event, read: nat)
    requires e.LlmCall? && read == Read(e)
    ensures CountersGrowBy(s, CountCall(s, e, read), [e])
  {
    hide IntOf, SumOf, Counted, Read;
    EachOnce(e);
  }

  lemma UpdateCounts(s: Stats, e: Event)
    ensures CountersGrowBy(s, Update(s, e).stats, [e])
  {
    if e.LlmCall? {
      SameRead(s, e);
      CallCounts(s, e, Read(e));
      hide *;
    } else {
      OtherCounts(s, e);
    }
  }

  lemma OtherCounts(s: Stats, e: Event)
    requires !e.LlmCall?
    ensures CountersGrowBy(s, Update(s, e).stats, [e])
  {
    EachOnce(e);
    hide Faults, FirstFault, SumOf, StoreAt;
  }

  lemma GrowthAddsUp(s: Stats, one: Stats, after: Stats, events: seq<Event>)
    requires events != [] && CountersGrowBy(s, one, [events[0]]) && CountersGrowBy(one, after, events[1..])
    ensures CountersGrowBy(s, after, events)
  {
    forall weight { SumSplits(events, weight); }
    hide SumOf;
  }

  /** Over any events each counter counts what it is for: calls, input, output, reasoning and cache tokens, tool calls, Python
      blocks, REPL runs and successes, rounds and steps. */
  lemma {:induction false} CountersCount(s: Stats, events: seq<Event>)
    ensures CountersGrowBy(s, UpdateAll(s, events), events)
    decreases |events|
  {
    UpdateAllSplits(s, events);
    if events == [] {
      NothingCounted(s);
    } else {
      UpdateCounts(s, events[0]);
      var one := Update(s, events[0]).stats;
      CountersCount(one, events[1..]);
      hide *;
      GrowthAddsUp(s, one, UpdateAll(s, events), events);
    }
  }

  lemma NothingCounted(s: Stats)
    ensures CountersGrowBy(s, s, [])
  {}

  /** The call is for this model. */
  ghost function ForModel(name: string, weight: Event -> int): Event -> int {
    (e: Event) => if e.LlmCall? && e.model == Key(name) then weight(e) else 0
  }

  /** The tokens of one model have grown by the sum of its own calls' fields. */
  ghost predicate ModelGrowsBy(s: Stats, after: Stats, name: string, events: seq<Event>) {
    var (t, u) := (TokensOf(s.modelTokens, name), TokensOf(after.modelTokens, name));
    && u.input == t.input + SumOf(events, ForModel(name, InCall(7, INPUTS)))
    && u.output == t.output + SumOf(events, ForModel(name, InCall(7, OUTPUTS)))
    && u.cache == t.cache + SumOf(events, ForModel(name, InCall(7, CACHED)))
    && u.cacheWrite == t.cacheWrite + SumOf(events, ForModel(name, InCall(8, CREATED)))
  }

  lemma EachOnceForModel(e: Event, name: string)
    ensures SumOf([e], ForModel(name, InCall(7, INPUTS))) == ForModel(name, InCall(7, INPUTS))(e)
    ensures SumOf([e], ForModel(name, InCall(7, OUTPUTS))) == ForModel(name, InCall(7, OUTPUTS))(e)
    ensures SumOf([e], ForModel(name, InCall(7, CACHED))) == ForModel(name, InCall(7, CACHED))(e)
    ensures SumOf([e], ForModel(name, InCall(8, CREATED))) == ForModel(name, InCall(8, CREATED))(e)
  {
    SumOfOne(e, ForModel(name, InCall(7, INPUTS)));
    SumOfOne(e, ForModel(name, InCall(7, OUTPUTS)));
    SumOfOne(e, ForModel(name, InCall(7, CACHED)));
    SumOfOne(e, ForModel(name, InCall(8, CREATED)));
  }

  lemma CallCountsModel(s: Stats, e: Event, read: nat, name: string)
    requires e.LlmCall? && read == Read(e) && (read >= 7 ==> e.model.Key?)
    ensures ModelGrowsBy(s, CountCall(s, e, read), name, [e])
  {
    hide IntOf, SumOf, Read;
    EachOnceForModel(e, name);
  }

  lemma UpdateCountsModel(s: Stats, e: Event, name: string)
    ensures ModelGrowsBy(s, Update(s, e).stats, name, [e])
  {
    if e.LlmCall? {
      SameRead(s, e);
      KeyHasConverted(e);
      CallCountsModel(s, e, Read(e), name);
      hide *;
    } else {
      OnlyItsOwnEvents(s, e);
      EachOnceForModel(e, name);
      hide Update, SumOf;
    }
  }

  lemma ModelGrowthAddsUp(s: Stats, one: Stats, after: Stats, name: string, events: seq<Event>)
    requires events != [] && ModelGrowsBy(s, one, name, [events[0]]) && ModelGrowsBy(one, after, name, events[1..])
    ensures ModelGrowsBy(s, after, name, events)
  {
    forall weight { SumSplits(events, weight); }
    hide SumOf, TokensOf;
  }

  /** Over any events each model's counts are those of the calls to it that reach them. */
  lemma {:induction false} ModelCountsCount(s: Stats, name: string, events: seq<Event>)
    ensures ModelGrowsBy(s, UpdateAll(s, events), name, events)
    decreases |events|
  {
    UpdateAllSplits(s, events);
    if events != [] {
      UpdateCountsModel(s, events[0], name);
      var one := Update(s, events[0]).stats;
      ModelCountsCount(one, name, events[1..]);
      hide *;
      ModelGrowthAddsUp(s, one, UpdateAll(s, events), name, events);
    }
  }

  /** Only its own kind of event changes a field: the step, level and action count of the level an env_step, the baselines and
      the step limit a solver_start, the scores and action counts of levels a level_score, the models' tokens an llm_call. */
  lemma OnlyItsOwnEvents(s: Stats, e: Event)
    ensures
      var after := Update(s, e).stats;
      && (after.step != s.step || after.level != s.level || after.actionsThisLevel != s.actionsThisLevel ==> e.EnvStep?)
      && (after.maxSteps != s.maxSteps || after.baselines != s.baselines ==> e.SolverStart?)
      && (after.levelScores != s.levelScores || after.aiActions != s.aiActions ==> e.LevelScored?)
      && (after.modelTokens != s.modelTokens ==> e.LlmCall?)
  {
  }

  /** A solver_start with a list of baselines and a number sets both; an env_step with numbers sets the step and the level,
      counts the action, and starts the count over on a new level. */
  lemma StartsAndSteps(s: Stats, baselines: seq<int>, n: int, level: int, acted: bool)
    requires n != 0 && level != 0
    ensures
      var number := (k: int) => Json.Number(k as real);
      var started := Update(s, SolverStart(Known(baselines), number(n))).stats;
      var stepped := Update(s, EnvStep(number(n), number(level), acted)).stats;
      && started.baselines == baselines && started.maxSteps == n
      && stepped.step == n && stepped.level == level
      && stepped.actionsThisLevel ==
           if level > s.level then 0 else if acted then s.actionsThisLevel + 1 else s.actionsThisLevel
  {
    var a, b := Json.Number(n as real), Json.Number(level as real);
    assert Trunc(n as real) == n && Trunc(level as real) == level;
    NoFaults(Faults(s, SolverStart(Known(baselines), a)));
    NoFaults(Faults(s, EnvStep(a, b, acted)));
  }

  // -------------------------------------------------------------------------------------------------- fields and lists

  /** `int` of a field: an absent or falsy one counts the default, a number is cut towards zero, text must spell an integer;
      a container or an infinity is not caught, anything else that does not convert is. */
  lemma IntConversion(j: Json, default: int)
    ensures ToInt(j, default) == Raised(Escaping) <==> j.Container? || j.Infinite?
    ensures ToInt(j, default) == Raised(Caught) <==> j.NotANumber? || (j.Text? && j.asInt.None?)
    ensures j.Absent? || j.Falsy? ==> ToInt(j, default) == Int(default)
    ensures j.Text? && j.asInt.Some? ==> ToInt(j, default) == Int(j.asInt.value)
    ensures j.Number? && j.value >= 0.0 ==>
              ToInt(j, default).Int? && 0.0 <= j.value - ToInt(j, default).n as real < 1.0 && ToInt(j, default).n >= 0
    ensures j.Number? && j.value < 0.0 ==>
              ToInt(j, default).Int? && -1.0 < j.value - ToInt(j, default).n as real <= 0.0 && ToInt(j, default).n <= 0
  {
  }

  /** Storing at an index, from the end when negative, sets that element, keeps every other, and pads up to it. */
  lemma StoredAt<T>(s: seq<T>, i: int, x: T, pad: T)
    requires i + |s| >= 0
    ensures
      var (stored, at) := (StoreAt(s, i, x, pad), if i < 0 then i + |s| else i);
      && |stored| == (if at < |s| then |s| else at + 1) && stored[at] == x
      && forall k :: 0 <= k < |stored| && k != at ==> stored[k] == if k < |s| then s[k] else pad
  {
  }

  /** A level_score event with numbers for its level, actions and baseline stores the actions there, and the score of that
      many actions against that baseline. */
  lemma ScoredLevelIs(s: Stats, level: nat, ai: int, baseline: int, score: Json)
    requires Sound(s) && ai != 0 && baseline != 0
    ensures
      var number := (n: int) => Json.Number(n as real);
      var after := Update(s, LevelScored(number(ai), number(baseline), score, number(level))).stats;
      && level < |after.levelScores| == |after.aiActions|
      && after.levelScores[level] == Finite(Rhae.LevelScore(baseline, ai)) && after.aiActions[level] == ai
      && forall k :: 0 <= k < |s.levelScores| && k != level ==>
           after.levelScores[k] == s.levelScores[k] && after.aiActions[k] == s.aiActions[k]
  {
    var e := LevelScored(
      Json.Number(ai as real), Json.Number(baseline as real), score, Json.Number(level as real));
    assert Trunc(ai as real) == ai && Trunc(baseline as real) == baseline && Trunc(level as real) == level;
    NoFaults(Faults(s, e));
    StoredAt(s.levelScores, level, Finite(Rhae.LevelScore(baseline, ai)), Finite(0.0));
    StoredAt(s.aiActions, level, ai, 0);
    hide Rhae.LevelScore, SetPadded;
  }

  // ----------------------------------------------------------------------------------------------------------- polling

  /** The folding of a game's tracker; the codec gives the event of every line that is JSON, object or not. */
  function EventFolding(codec: Codec<Event>): Folding<Stats, Event> {
    Folding(codec, (s: Stats, e: Event) => Update(s, e).stats, (s: Stats, e: Event) => Update(s, e).fault == Escaping)
  }

  /** A line whose event has, as the first field that raises, one of a wrong type. */
  ghost predicate BadLine(codec: Codec<Event>, stats: Stats, line: Line) {
    RecordsOf(codec, line) != [] && Escapes(stats, RecordsOf(codec, line)[0])
  }

  /** A poll of events.jsonl folds every complete line it finds if and only if no line but the last holds an event of which the
      first field that raises is of a wrong type: a container or an infinity for a number, no model, a level below the list,
      or no object at all. */
  lemma PollLosesLinesIff(codec: Codec<Event>, t: Tail, size: nat, content: seq<Byte>)
    ensures
      var f := EventFolding(codec);
      var lines := Arrived(t, size, content);
      var stats := StatsAfter(f, NO_STATS, (if size < t.offset then FRESH else t).folded);
      CrashingPoll(f, NO_STATS, t, size, content) == Poll(t, size, content) <==>
      forall i: nat :: i < |lines| - 1 ==> !BadLine(codec, StatsAfter(f, stats, lines[..i]), lines[i])
  {
    var f := EventFolding(codec);
    var lines := Arrived(t, size, content);
    var stats := StatsAfter(f, NO_STATS, (if size < t.offset then FRESH else t).folded);
    CrashLosesLinesIff(f, NO_STATS, t, size, content);
    forall i: nat | i < |lines|
      ensures EscapesIn(f, stats, lines, i) == BadLine(codec, StatsAfter(f, stats, lines[..i]), lines[i]) {
      BadLineEscapes(codec, StatsAfter(f, stats, lines[..i]), lines[i]);
    }
  }

  lemma BadLineEscapes(codec: Codec<Event>, stats: Stats, line: Line)
    ensures EscapesAt(EventFolding(codec), stats, line) == BadLine(codec, stats, line)
  {
    hide Faults, FirstFault, Escapes;
    if RecordsOf(codec, line) != [] { EscapesIff(stats, RecordsOf(codec, line)[0]); }
  }

  // --------------------------------------------------------------------------------------------------------- the object

  lemma {:induction false} NoFaults(faults: seq<Fault>)
    requires forall i :: 0 <= i < |faults| ==> faults[i] == NoFault
    ensures FirstFault(faults) == |faults|
  {
    if faults != [] { NoFaults(faults[1..]); }
  }

  class GameStats {
    var totalLlmCalls: nat
    var inputTokens: int
    var outputTokens: int
    var totalReasoning: int
    var totalCacheRead: int
    var numToolCalls: int
    var numPythonBlocks: int
    var replTotal: nat
    var replSuccess: nat
    var totalRounds: nat
    var completedSteps: nat
    var step: int
    var level: int
    var actionsThisLevel: nat
    var maxSteps: int
    var baselineActions: seq<int>
    var modelTokens: ModelTokens
    var rhaeLevelScores: seq<Float>
    var aiActionsPerLevel: seq<int>

    ghost function View(): Stats
      reads this
    {
      Stats(
        totalLlmCalls, inputTokens, outputTokens, totalReasoning, totalCacheRead, numToolCalls, numPythonBlocks, replTotal,
        replSuccess, totalRounds, completedSteps, step, level, actionsThisLevel, maxSteps, baselineActions, modelTokens,
        rhaeLevelScores, aiActionsPerLevel)
    }

    constructor ()
      ensures View() == NO_STATS
    {
      totalLlmCalls, inputTokens, outputTokens, totalReasoning, totalCacheRead := 0, 0, 0, 0, 0;
      numToolCalls, numPythonBlocks, replTotal, replSuccess := 0, 0, 0, 0;
      totalRounds, completedSteps, step, level, actionsThisLevel, maxSteps := 0, 0, 0, 0, 0, 0;
      baselineActions, modelTokens, rhaeLevelScores, aiActionsPerLevel := [], map[], [], [];
    }

    /** `setdefault` and the increments of one model. */
    method CountTokens(model: string, t: Tokens)
      modifies this`modelTokens
      ensures modelTokens == old(modelTokens)[model := TokensOf(old(modelTokens), model).Plus(t)]
    {
      if model !in modelTokens {
        modelTokens := modelTokens[model := NO_TOKENS];
      }
      modelTokens := modelTokens[model := modelTokens[model].Plus(t)];
    }

    lemma CountedTwice(m: ModelTokens, model: string, t: Tokens, u: Tokens)
      ensures
        var once := m[model := TokensOf(m, model).Plus(t)];
        once[model := TokensOf(once, model).Plus(u)] == m[model := TokensOf(m, model).Plus(t.Plus(u))]
    {
    }

    /** The call, input and output totals of an `llm_call`, up to the first field that raises. */
    method CountTokenTotals(e: Event) returns (read: nat, fault: Fault)
      requires e.LlmCall?
      modifies this`totalLlmCalls, this`inputTokens, this`outputTokens
      ensures read <= 2 && (read < 2 <==> fault != NoFault) && View() == CountCall(old(View()), e, read)
      ensures read < 2 ==> fault == CallFault(e, read)
      ensures forall i :: 0 <= i < read ==> CallFault(e, i) == NoFault
    {
      hide IntFault, IntOf;
      read, fault := 0, IntFault(e.input);
      if fault != NoFault { return; }
      read, fault := 1, IntFault(e.output);
      if fault != NoFault { return; }
      totalLlmCalls := totalLlmCalls + 1;
      inputTokens, outputTokens := inputTokens + IntOf(e.input), outputTokens + IntOf(e.output);
      read := 2;
    }

    /** The other totals. */
    method CountOtherTotals(e: Event) returns (read: nat, fault: Fault)
      requires e.LlmCall?
      modifies this`totalReasoning, this`totalCacheRead, this`numToolCalls, this`numPythonBlocks
      ensures 2 <= read <= 6 && (read < 6 <==> fault != NoFault) && View() == CountOthers(old(View()), e, read)
      ensures read < 6 ==> fault == CallFault(e, read)
      ensures forall i :: 2 <= i < read ==> CallFault(e, i) == NoFault
    {
      hide IntFault, IntOf;
      read, fault := 2, IntFault(e.reasoning);
      if fault != NoFault { return; }
      totalReasoning := totalReasoning + IntOf(e.reasoning);
      read, fault := 3, IntFault(e.cacheRead);
      if fault != NoFault { return; }
      totalCacheRead := totalCacheRead + IntOf(e.cacheRead);
      read, fault := 4, IntFault(e.tools);
      if fault != NoFault { return; }
      numToolCalls := numToolCalls + IntOf(e.tools);
      read, fault := 5, IntFault(e.blocks);
      if fault != NoFault { return; }
      numPythonBlocks := numPythonBlocks + IntOf(e.blocks);
      read := 6;
    }

    ghost function CountOthers(s: Stats, e: Event, read: nat): Stats
      requires e.LlmCall?
    {
      s.(reasoning := s.reasoning + (if read >= 3 then IntOf(e.reasoning) else 0),
         cacheRead := s.cacheRead + (if read >= 4 then IntOf(e.cacheRead) else 0),
         toolCalls := s.toolCalls + (if read >= 5 then IntOf(e.tools) else 0),
         pythonBlocks := s.pythonBlocks + (if read >= 6 then IntOf(e.blocks) else 0))
    }

    lemma CountInParts(s: Stats, e: Event, read: nat)
      requires e.LlmCall?
      ensures 2 <= read <= 6 ==> CountCall(s, e, read) == CountOthers(CountCall(s, e, 2), e, read)
      ensures
        var counted := CountCall(s, e, 6);
        var t := Tokens(IntOf(e.input), IntOf(e.output), IntOf(e.cacheRead), 0);
        && counted.modelTokens == s.modelTokens
        && (e.model.Key? ==>
              && CountCall(s, e, 7) == counted.(modelTokens := Counted(s, e.model.name, t))
              && CountCall(s, e, 8) == counted.(modelTokens :=
                   Counted(s, e.model.name, t.Plus(Tokens(0, 0, 0, IntOf(e.cacheCreation))))))
    {
      hide IntOf;
    }

    ghost function CallFault(e: Event, i: int): Fault
      requires e.LlmCall?
    {
      if i == 0 then IntFault(e.input) else if i == 1 then IntFault(e.output) else if i == 2 then IntFault(e.reasoning)
      else if i == 3 then IntFault(e.cacheRead) else if i == 4 then IntFault(e.tools) else if i == 5 then IntFault(e.blocks)
      else if i == 6 then (if e.model.Key? then NoFault else Escaping) else IntFault(e.cacheCreation)
    }

    /** What `read` and `fault` come to. */
    lemma CallEnds(s: Stats, e: Event, read: nat)
      requires e.LlmCall? && read <= 8 && forall i :: 0 <= i < read ==> CallFault(e, i) == NoFault
      requires read < 8 ==> CallFault(e, read) != NoFault
      ensures Update(s, e) == Updated(CountCall(s, e, read), if read < 8 then CallFault(e, read) else NoFault)
    {
      hide IntFault, CountCall;
      var faults := Faults(s, e);
      assert |faults| == 8 && forall i :: 0 <= i < 8 ==> faults[i] == CallFault(e, i);
      hide Faults, CallFault, FirstFault;
      if read < 8 { FirstFaultIs(faults, read); } else { NoFaults(faults); }
    }

    /** An `llm_call`: its totals, then the counts of its model. */
    method CountLlmCall(e: Event) returns (fault: Fault)
      requires e.LlmCall?
      modifies this
      ensures Updated(View(), fault) == Update(old(View()), e)
    {
      hide Update, CountCall, CountOthers, IntFault, IntOf;
      ghost var before := View();
      var read;
      read, fault := CountTokenTotals(e);
      if fault != NoFault { CallEnds(before, e, read); return; }
      read, fault := CountOtherTotals(e);
      CountInParts(before, e, read);
      if fault != NoFault { CallEnds(before, e, read); return; }
      fault := CountModel(e, before);
    }

    /** The counts of the call's model. */
    method CountModel(e: Event, ghost before: Stats) returns (fault: Fault)
      requires e.LlmCall? && View() == CountCall(before, e, 6)
      requires forall i :: 0 <= i < 6 ==> CallFault(e, i) == NoFault
      modifies this`modelTokens
      ensures Updated(View(), fault) == Update(before, e)
    {
      hide Update, CountCall, IntFault, IntOf;
      CountInParts(before, e, 6);
      if e.model.NoKey? { CallEnds(before, e, 6); return Escaping; }
      var counted := Tokens(IntOf(e.input), IntOf(e.output), IntOf(e.cacheRead), 0);
      CountTokens(e.model.name, counted);
      fault := IntFault(e.cacheCreation);
      if fault != NoFault { CallEnds(before, e, 7); return; }
      CountedTwice(before.modelTokens, e.model.name, counted, Tokens(0, 0, 0, IntOf(e.cacheCreation)));
      CountTokens(e.model.name, Tokens(0, 0, 0, IntOf(e.cacheCreation)));
      CallEnds(before, e, 8);
    }

    method ScoreOfLevel(e: Event) returns (fault: Fault)
      requires e.LevelScored? && |rhaeLevelScores| == |aiActionsPerLevel|
      modifies this`rhaeLevelScores, this`aiActionsPerLevel
      ensures Updated(View(), fault) == Update(old(View()), e)
    {
      ghost var before := View();
      ghost var faults := Faults(before, e);
      hide FirstFault;
      fault := IntFault(e.aiActions);
      if fault != NoFault { FirstFaultIs(faults, 0); return; }
      fault := IntFault(e.baseline);
      if fault != NoFault { FirstFaultIs(faults, 1); return; }
      var ai, baseline := IntOf(e.aiActions), IntOf(e.baseline);
      var score;
      if baseline != 0 && ai != 0 {
        score := Finite(Rhae.LevelScore(baseline, ai));
      } else {
        fault := FloatFault(e.score);
        if fault != NoFault { FirstFaultIs(faults, 2); return; }
        score := FloatOf(e.score);
      }
      fault := IntFault(e.level);
      if fault != NoFault { FirstFaultIs(faults, 3); return; }
      var at := ToLevel(e.level, |rhaeLevelScores|).n;
      if at + |rhaeLevelScores| < 0 { FirstFaultIs(faults, 4); return Escaping; }
      rhaeLevelScores := Store(rhaeLevelScores, at, score, Finite(0.0));
      aiActionsPerLevel := Store(aiActionsPerLevel, at, ai, 0);
      NoFaults(faults);
    }

    method StepOfEnv(e: Event) returns (fault: Fault)
      requires e.EnvStep?
      modifies this`step, this`level, this`actionsThisLevel
      ensures Updated(View(), fault) == Update(old(View()), e)
    {
      ghost var faults := Faults(View(), e);
      hide FirstFault;
      fault := IntFault(e.step);
      if fault != NoFault { FirstFaultIs(faults, 0); return; }
      step := IntOr(e.step, step);
      fault := IntFault(e.levels);
      if fault != NoFault { FirstFaultIs(faults, 1); return; }
      var newLevel := IntOr(e.levels, level);
      if e.acted { actionsThisLevel := actionsThisLevel + 1; }
      if newLevel > level { actionsThisLevel := 0; }
      level := newLevel;
      NoFaults(faults);
    }

    method StartOfSolver(e: Event) returns (fault: Fault)
      requires e.SolverStart?
      modifies this`baselineActions, this`maxSteps
      ensures Updated(View(), fault) == Update(old(View()), e)
    {
      ghost var faults := Faults(View(), e);
      hide FirstFault;
      if e.baselines.NotIterable? { FirstFaultIs(faults, 0); return Escaping; }
      if e.baselines.Known? { baselineActions := e.baselines.baselines; }
      fault := IntFault(e.maxSteps);
      if fault != NoFault { FirstFaultIs(faults, 1); return; }
      maxSteps := IntOr(e.maxSteps, maxSteps);
      NoFaults(faults);
    }

    /** `update`, with what it raises. */
    method UpdateWith(e: Event) returns (fault: Fault)
      requires |rhaeLevelScores| == |aiActionsPerLevel|
      modifies this
      ensures Updated(View(), fault) == Update(old(View()), e)
      ensures |rhaeLevelScores| == |aiActionsPerLevel|
      ensures fault == Escaping <==> Escapes(old(View()), e)
    {
      EscapesIff(View(), e);
      fault := NoFault;
      match e {
        case LlmCall(_, _, _, _, _, _, _, _) => fault := CountLlmCall(e);
        case ReplExecute(success) =>
          replTotal := replTotal + 1;
          if success { replSuccess := replSuccess + 1; }
        case RoundComplete(_, _, _, _) =>
          totalRounds := totalRounds + 1;
          fault := FirstOf([FloatFault(e.total), FloatFault(e.llm), FloatFault(e.repl), FloatFault(e.compaction)]);
        case StepComplete(_) =>
          completedSteps := completedSteps + 1;
          fault := FloatFault(e.wallTime);
        case LevelScored(_, _, _, _) => fault := ScoreOfLevel(e);
        case SolverStart(_, _) => fault := StartOfSolver(e);
        case EnvStep(_, _, _) => fault := StepOfEnv(e);
        case NotAnObject => fault := Escaping;
        case OtherEvent =>
      }
    }
  }

  /** `s[i] = x` on a list that is padded up to index i; a negative index counts from the end. */
  method Store<T>(s: seq<T>, i: int, x: T, pad: T) returns (stored: seq<T>)
    requires i + |s| >= 0
    ensures stored == StoreAt(s, i, x, pad)
  {
    stored := s;
    while |stored| <= i
      invariant s <= stored && |stored| <= if |s| <= i then i + 1 else |s|
      invariant forall k :: |s| <= k < |stored| ==> stored[k] == pad
    {
      stored := stored + [pad];
    }
    stored := stored[(if i < 0 then i + |s| else i) := x];
  }
}
