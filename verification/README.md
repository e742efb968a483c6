# A verified model of the NOOA agent framework's stateful cores

The repository holds an agent framework (`src/nooa`) and an ARC-AGI-3 solver built on it (`examples/arc_agi_3`). This
project models the parts whose behaviour spans many calls and proves what they keep over whole runs. Run
`dafny verify dfyconfig.toml` here to check it.

**The turn protocol** (`TurnProtocol`, `TurnSafety`, `TurnBacklog`, `GamePlay`, `HarnessLoop`, `JsonLines`, `ActionReader`). A game
harness and an agent share two append-only logs. The protocol is a step relation in which every read, check and append
of the agent is a step of its own, so harness steps fall anywhere between them; the theorems hold of every run. The
game is an arbitrary oracle for `env.step`. `HarnessLoop.Harness` is the main loop as it updates its variables: each
round is a sequence of protocol steps with any number of agent steps in between. `ActionReader` takes the log down to
bytes: polls see any prefix of a growing file.

**The skill registry** (`SkillModel`, `SkillLifecycle`, `SkillClosure`, `SkillReload`, `SkillRuns`, `SkillRegistry`).
`SkillModel` and `SkillReload` say on values what each operation does, `SkillRegistry.SkillRegistry` is the object
that updates its fields, its agent's attributes, context and attachments in place. Its public methods promise the
theorems themselves: what is loaded and shown, closure, the reload transaction, and that a tidy registry stays tidy. The
order in which a set of names is visited is arbitrary.

**Layered configuration** (`LayerMerge`, `MergeInPlace`, `LayerChain`, `LayeredConfig`, `LayerLists`,
`LayeredLoader`). The in-place key loop over
mapping objects on the heap computes MergePatch of section 2 of RFC 7396, and keeping only the last occurrence of every
file never shows in the merged result. Lists are taken over whole; `LayerLists` says when that shows.

**Observability** (`ViewerTail`, `ViewerEvents`, `ViewerStats`, `StableSort`, `EventExporter`, `Attribution`, `CodeCredit`,
`ExportedBatches`, `Rhae`, `LiveBounds`). The incremental
tail of an event log, the token and cost totals, the attribution of code time to LLM rounds, and score bounds over all
continuations of a game (on reals).

**The truncating stream** (`TruncatingStream`). A chunked rolling buffer that refines "the first h and the last t
characters of everything written".

## What the proofs found

- The comment at `examples/arc_agi_3/harness.py:508-509` says a silent agent's game is bounded by max-env-steps. Steps that
  raise do not count: without max_turns, a game that never wins or dies is bounded exactly if max_env_steps of its answers
  are steps (`HarnessLoop.Harness.RunLoop`).
- The comment at `examples/arc_agi_3/harness.py:524` asks that a dropped tail be loud. The note of an early stop replaces
  the truncation note; `GamePlay.DroppedTailIsAnnouncedIff` says, from the game's answers, exactly when the count it
  names is right, and `GamePlay.RaiseDropsTailSilently` is a tail that nothing announces.
- The action kept for a force-advance is the last one that stepped, whoever chose it, where the comment at its
  declaration speaks of the agent's; it is the agent's exactly under `HarnessLoop.LastIsAgentsIff`.
- A level can score 115%, so the bound `U` can be exceeded (`Rhae.UpperCanBeExceeded`). Where later levels have positive
  baselines it bounds every continuation if and only if it is 1 already or every later baseline is a single action
  (`Rhae.UpperBoundsEveryContinuationIff`).
- The viewer's `poll` takes its offset from `stat`, not from what it read (`ViewerTail.PollIsExactIff`,
  `ViewerTail.GrowthDuringPollFoldsTwice`), and catches ValueError only: an event with a container or an infinity for a
  number, without a usable model, with a level below its list, or that is no object, loses the lines after it
  (`ViewerEvents.PollLosesLinesIff`).
- Such events, and those with text for a number, can be counted in the totals and not in their model
  (`ViewerEvents.TokensAreConservedIff`, `ViewerEvents.ListForNumberLosesTokens`).
- The viewer counts every env_step of a level, the harness only the agent's actions: the shown `U` is that of a run with as
  many actions more as the level has had RESETs, the one that starts the game included (`LiveBounds.ShownActionsAreAhead`),
  and can be less than what the next action earns (`LiveBounds.ShownUpperFallsShortIff`).
- An agent between its duplicate check and its append can answer a state any number of turns later
  (`TurnBacklog.StalenessBoundIsTight`), though never more than three batches are unread
  (`TurnBacklog.BacklogIsBounded`).
- Two rounds of a turn can be credited with the same code exactly when both "end" before the one after the first starts
  (`CodeCredit.CodeCreditedTwiceIff`, `CodeCredit.BackwardSpanCreditsTwice`); a span without a key that is exported twice
  closes two rounds (`ExportedBatches.KeylessSpanClosesTwoRounds`). A span whose handler raises costs its whole batch
  (`EventExporter.Exporter.Export`).
- Merged over games, the aggregate cost can be below the sum of the per-game costs; `ViewerStats.AggregateCost` says
  exactly when.
- A null inside a list survives a merge, and a mapping inside a list is shared with its document
  (`LayerLists.LoadedHasNullIff`, `LayerLists.CopySharesIff`).
- A write that raises anything but OSError, after `close` for instance, is lost to the buffer too
  (`TruncatingStream.FileBackedStream.Write`).
- Two skills whose names end alike share one attribute, and hiding one removes the other's context block
  (`SkillLifecycle.SharedAttributeLosesBlock`); `SkillLifecycle.HidingIsExactIff` says exactly when hiding is harmless.
  Registering a loaded, activated name again leaves its old block behind unless the new one is equal
  (`SkillLifecycle.RegisterAgainIsExactIff`).
- When `attach` raises in `load` or `register`, the agent attribute has already been replaced
  (`SkillLifecycle.FailedLoadKeepsAttributesIff`, `SkillLifecycle.FailedRegisterKeepsAttributesIff`).
- A failed package import leaves the package out of `sys.modules`, and the skill cannot be reloaded until something else
  imports it (`SkillReload.CanBeRetriedIff`, `SkillReload.PurgedPackageStaysRefused`). A skill without `detach` stays
  attached beside its successor (`SkillReload.NewIsAloneIff`).

## Model

| member | source | states |
|---|---|---|
| TurnProtocol.StepKeepsInv | examples/arc_agi_3/solver_agent.py:896-964 | one step of either actor, in any interleaving, keeps the invariant: lines numbered, submissions strictly increasing and never ahead of the turn, consumed batches old, turns accounted, the agent's stale reads still sound |
| TurnProtocol.RunKeepsInv | examples/arc_agi_3/harness.py:455-652 | the invariant holds at the end of every run |
| TurnProtocol.DuplicateCheckIsSound | examples/arc_agi_3/solver_agent.py:736-743 | looking at the last line alone is enough to know that no line carries the turn |
| TurnProtocol.AgentIsStable | examples/arc_agi_3/solver_agent.py:727-734 | harness steps between the agent's read and its append do not invalidate what it read |
| TurnSafety.AppendedLine | examples/arc_agi_3/solver_agent.py:932-952 | an append adds one line: for the turn that was read, the first actions submitted up to the cap, marked with how many there were exactly if cut |
| TurnSafety.LinesAreRequests | examples/arc_agi_3/solver_agent.py:914-952 | over every run the action log is, line by line and in order, what the agent submitted, each cut that way |
| TurnSafety.SubmissionsOncePerTurn | examples/arc_agi_3/solver_agent.py:914-952 | at most one batch per turn, in turn order, only for published turns, non-empty and within the agent's cap |
| TurnSafety.AnsweredWaitIsAccepted | examples/arc_agi_3/solver_agent.py:124-147 | with the newest state answered a WAIT is accepted |
| TurnSafety.WonIsPublished | examples/arc_agi_3/harness.py:637-648 | over every run a state line says WIN iff the run has won; it is the last line, and an agent that reads it submits nothing |
| TurnSafety.EveryAdvanceIsPublished | examples/arc_agi_3/harness.py:352-381 | over every run there is one state line for the start, each nudge, each finished round, and the close of a stopped run |
| TurnSafety.ExecutedIsPrefixOfSubmitted | examples/arc_agi_3/harness.py:227-251 | the batches the harness took are exactly a prefix of those submitted, in order |
| TurnSafety.TurnsAreConserved | examples/arc_agi_3/harness.py:476-507 | turn = batches taken + force-advances + nudges (one less while a batch executes), and at each loop head states[i].turn = i with turn + 1 lines |
| TurnBacklog.BacklogIsBounded | examples/arc_agi_3/harness.py:234-251 | over all runs at most 3 batches are unread, at most 2 when the harness may advance by itself or executes, and at most 1 + force-advances + nudges |
| TurnBacklog.StepStaysClose | examples/arc_agi_3/harness.py:476-518 | one step of either actor keeps "unread batches plus those the agent can still append before the next state" at 3, and at 2 after a read that missed and while executing |
| TurnBacklog.BacklogOfThreeIsReached | examples/arc_agi_3/harness.py:476-518 | with and without the reminder, some run leaves 3 batches unread |
| TurnSafety.StalenessIsBounded | examples/arc_agi_3/harness.py:476-518 | a batch about to be taken answers a turn at most force-advances + nudges turns ago |
| TurnBacklog.StalenessBoundIsTight | examples/arc_agi_3/solver_agent.py:914-952 | for every n some run has n silent rounds and then takes a batch that is exactly that old, because reading and appending are two steps |
| TurnSafety.ConsumedBatchesAreOld | examples/arc_agi_3/harness.py:637-644 | wherever the harness waits, every consumed batch has an earlier turn |
| TurnSafety.NoMutualWait | examples/arc_agi_3/solver_agent.py:124-147 | if the harness is blocked reading and the last submission is for the newest state, that batch is unread |
| TurnSafety.IdleAgentLeftABatch | examples/arc_agi_3/solver_agent.py:124-147 | an agent whose WAIT was accepted and that has been handed every state has left a batch for a waiting harness |
| TurnSafety.DrainedHarnessGetsAnAnswer | examples/arc_agi_3/solver_agent.py:914-952 | facing a drained, waiting harness a submission passes the duplicate check and an unbacked WAIT is refused: short of returning for good the agent can only submit |
| GamePlay.PlayKeepsInv | examples/arc_agi_3/harness.py:536-628 | against any game a batch keeps step accounting (reported + current level + resets = steps = calls that returned), the GAME_OVER budget, and "no agent action after WIN or GAME_OVER, RESET only right after a death" |
| GamePlay.ActKeepsInv | examples/arc_agi_3/harness.py:536-600 | the same for one action |
| GamePlay.AutoResetKeepsInv | examples/arc_agi_3/harness.py:399-453 | the invariant of PlayKeepsInv for GAME_OVER recovery, with any budget |
| GamePlay.DeathIsAnswered | examples/arc_agi_3/harness.py:399-453 | a batch whose stopping answer is GAME_OVER ends there, and the harness plays one RESET as the next and last call, counts it and follows its answer, iff the budget is negative or not used up |
| GamePlay.PlayRecovers | examples/arc_agi_3/harness.py:399-453 | over any batches every death in the log is followed by a RESET exactly if the RESETs before it left some of the budget |
| GamePlay.LostIff | examples/arc_agi_3/harness.py:649-652 | the harness is left with GAME_OVER iff the log ends in an unanswered death, and then the budget is spent, or in a RESET that raised or died |
| GamePlay.PlayCost | examples/arc_agi_3/harness.py:538-548 | a batch costs between its executed actions and one more; at least one step unless its first call raises |
| GamePlay.PlayIsInOrder | examples/arc_agi_3/harness.py:536-628 | the calls are the batch's first actions, in order, never past a raise, an ended game or a completed level |
| GamePlay.DroppedTailIsAnnouncedIff | examples/arc_agi_3/harness.py:111-122 | stated on the game's answers: the state note counts exactly the actions that did not run iff none stops the batch, or the first that does is a level completion or a death of an uncut batch, a level completion by the last action, or a WIN by the last action of an uncut batch |
| GamePlay.RaiseDropsTailSilently | examples/arc_agi_3/harness.py:536-548 | a batch whose first action raises is announced as if nothing were missing |
| GamePlay.LastActionIsLastPlayed | examples/arc_agi_3/harness.py:549 | after a batch the remembered action is the last one that stepped |
| HarnessLoop.ApplyActionCap | examples/arc_agi_3/harness.py:106-108 | the first actions up to the cap, all of them for a cap of 0 or less |
| HarnessLoop.RequestedIsSubmitted | examples/arc_agi_3/harness.py:524-530 | the number requested is that of the actions the agent submitted, cut or not |
| HarnessLoop.DefaultAction | examples/arc_agi_3/harness.py:87-103 | UNDO, else the last action, else an available action that is neither RESET nor a bare CLICK, RESET only when nothing else is offered |
| HarnessLoop.Harness.AwaitBatch | examples/arc_agi_3/harness.py:476-518 | the silence ladder always yields a non-empty batch, the oldest unread one or, only after a read that found none, a forced single action; at most two nudges, and at most 2 batches left unread |
| HarnessLoop.Harness.PlayBatch | examples/arc_agi_3/harness.py:536-628 | the in-place loop leaves exactly the state of the specification Play |
| HarnessLoop.LastIsAgentsIff | examples/arc_agi_3/harness.py:396 | over any rounds, the remembered action is the agent's own iff some batch of the agent's has stepped since the last forced step |
| HarnessLoop.Harness.PlayRound | examples/arc_agi_3/harness.py:476-645 | one round plays the capped batch it took or invented, accounts for it in the note and publishes one state |
| HarnessLoop.Harness.Round | examples/arc_agi_3/harness.py:455-652 | keeps the run, accounting, recovery, call log and loop-head invariants; turn <= max_turns + 2 and steps <= max_env_steps + cap at all times |
| HarnessLoop.Harness.LostGameIff | examples/arc_agi_3/harness.py:649-652 | the loop ends as lost iff the log ends in an unanswered death, with the budget spent, or in a RESET that raised or died |
| HarnessLoop.Harness.RunLoop | examples/arc_agi_3/harness.py:455-521 | without a turn limit, against a game that never wins or dies, the loop ends iff some n of its answers hold max_env_steps steps, and against any game then within n + 1 rounds; with a turn limit it ends within max_turns + 1 rounds |
| JsonLines.SplitThenJoin | examples/arc_agi_3/harness.py:234-242 | the complete lines and the partial line are the whole file |
| JsonLines.JoinThenSplit | examples/arc_agi_3/harness.py:234-242 | splitting newline-free lines and a partial line gives them back |
| JsonLines.LinesOfGrownFile | examples/arc_agi_3/viewer.py:394-406 | the lines of an extended file are the old lines and those of the old partial line with the new bytes |
| ActionReader.Reader.ReadLine | examples/arc_agi_3/harness.py:237-242 | moves past exactly one complete line, or leaves the position alone when the visible bytes hold none |
| ActionReader.Reader.NextBatch | examples/arc_agi_3/harness.py:234-251 | returns the next parsed record and stays just after a complete line, whatever the polls see of the growing file |
| ActionReader.ReturnedArePrefixOfSubmitted | examples/arc_agi_3/solver_agent.py:943-952 | wherever the writer's bytes are cut, the records returned are a prefix of those written, and all of them at the end of the file |
| ViewerTail.PollIsOneShot | examples/arc_agi_3/viewer.py:376-406 | after a poll whose stat and read agree, lines folded and buffer are those of the whole file, appended or shrunk |
| ViewerTail.PollsAreOneShot | examples/arc_agi_3/viewer.py:376-406 | the same after any sequence of polls, however they cut the stream |
| ViewerTail.PollIsExactIff | examples/arc_agi_3/viewer.py:390-399 | with growth between stat and read, the tail is exact iff nothing was appended in between |
| ViewerTail.GrowthDuringPollFoldsTwice | examples/arc_agi_3/viewer.py:390-399 | lines appended between stat and read are folded by that poll and again by the next |
| ViewerTail.CrashLosesLinesIff | examples/arc_agi_3/viewer.py:399-406 | a poll folds every complete line it finds iff no exception escapes at any line but the last |
| ViewerEvents.PollLosesLinesIff | examples/arc_agi_3/viewer.py:260-327 | on the fields: iff no line but the last holds an event whose first raising field is of a wrong type |
| ViewerTail.GameTracker.PollFile | examples/arc_agi_3/viewer.py:376-406 | the in-place poll is the specification up to and including the first line at which an exception escapes, one escapes iff there is such a line, and the statistics are the fold over those lines, as far as each got |
| ViewerEvents.EscapesIff | examples/arc_agi_3/viewer.py:260-327 | what `update` raises is not caught iff, in the order in which fields are read, the first that raises is of a wrong type |
| ViewerEvents.TokensAreConservedIff | examples/arc_agi_3/viewer.py:267-290 | from empty statistics and raw fields, after any events, the per-model input, output and cache counts sum to the game totals iff the tokens of the calls that raise between the two sum to nothing; repl_success <= repl_total |
| ViewerEvents.ListForNumberLosesTokens | examples/arc_agi_3/viewer.py:267-290 | 5 input tokens and a list for the reasoning tokens |
| ViewerEvents.TokensAreConserved | examples/arc_agi_3/viewer.py:267-290 | in particular when no call raises there |
| ViewerEvents.CountersCount | examples/arc_agi_3/viewer.py:267-299 | over any events each counter grows by the sum of its own field over the calls that reach it, or the number of its own events |
| ViewerEvents.ModelCountsCount | examples/arc_agi_3/viewer.py:278-290 | each model's counts grow by the fields of the calls to that model |
| ViewerEvents.OnlyItsOwnEvents | examples/arc_agi_3/viewer.py:260-327 | no field is changed by an event of another kind |
| ViewerEvents.StartsAndSteps | examples/arc_agi_3/viewer.py:314-327 | what a solver_start and an env_step with numbers set and count |
| ViewerEvents.IntConversion | examples/arc_agi_3/viewer.py:268-269 | which fields convert to which integer, which raise ValueError and which anything else |
| ViewerEvents.ScoredLevelIs | examples/arc_agi_3/viewer.py:300-313 | a level_score stores the actions and the score of that many actions against its baseline at its level, and nothing else |
| ViewerEvents.GameStats.UpdateWith | examples/arc_agi_3/viewer.py:260-327 | the in-place update is the specification for every kind of event, up to the field that raises, and says what it raises |
| ViewerEvents.Store | examples/arc_agi_3/viewer.py:307-312 | the padding loop is the specified store |
| ViewerEvents.StoredAt | examples/arc_agi_3/viewer.py:307-312 | it sets one element, from the end when the index is negative, pads up to it and keeps every other |
| ViewerStats.Aggregate | examples/arc_agi_3/viewer.py:494-506 | the accumulation over games merges every model's counts |
| ViewerStats.EachRateHasItsTokens | examples/arc_agi_3/viewer.py:85-94 | nothing is charged at zero rates, and raising one rate raises a model's cost by that much per million of its own tokens: output, cached, cache-written, and for the input rate those that are neither |
| ViewerStats.CostFollowsRate | examples/arc_agi_3/viewer.py:329-330 | so does the cost of a game and of the merged games, over all models |
| ViewerStats.MergedModelCost | examples/arc_agi_3/viewer.py:85-94 | merging a model over games never costs more, and costs the same iff its input price is 0 or its uncached counts have no mixed signs |
| ViewerStats.AggregateCost | examples/arc_agi_3/viewer.py:494-526 | the aggregate cost is at most the sum of the game costs, with equality iff that holds of every model |
| ViewerStats.AggregateCostIsExact | examples/arc_agi_3/viewer.py:494-526 | equality whenever cache + cache_write <= input for every game and model |
| ViewerStats.OffsetLowersTheTotal | examples/arc_agi_3/viewer.py:85-94 | two games where the inequality is strict |
| EventExporter.Exporter.Export | examples/arc_agi_3/viewer_event_exporter.py:240-279 | a batch is deduplicated, children are handled before turns, and the new events are appended in time order; the batch is lost and the file left alone iff the handler of a new span raises |
| EventExporter.Exporter.BufferBatch | examples/arc_agi_3/viewer_event_exporter.py:240-265 | phase 1 buffers exactly the unseen children and sets aside exactly the unseen turns, up to a child whose handler raises, which is buffered unless it raises early |
| EventExporter.Exporter.EmitTurn | examples/arc_agi_3/viewer_event_exporter.py:393-445 | phase 2 emits one event per round of the turn and keeps only later records |
| ExportedBatches.AtMostOneRoundPerSpan | examples/arc_agi_3/viewer_event_exporter.py:240-279 | over any sequence of export batches, overlapping and lost ones included, an LLM span that always carries the same key closes at most one round |
| ExportedBatches.KeylessSpanClosesTwoRounds | examples/arc_agi_3/viewer_event_exporter.py:246-250 | without a key, a span exported twice before its turn closes two rounds |
| ExportedBatches.AtMostOneRoundPerCodeSpan | examples/arc_agi_3/viewer_event_exporter.py:405-425 | over any export batches each code span's time goes to at most one round, as long as no turn has overlapping rounds |
| ExportedBatches.ForwardBatchesAreApart | examples/arc_agi_3/viewer_event_exporter.py:405-425 | agent spans that end no earlier than they start never overlap |
| ExportedBatches.ReplTimeIsBounded | examples/arc_agi_3/viewer_event_exporter.py:405-425 | the REPL time reported is at most the time of the code spans, a span exported twice counted once |
| CodeCredit.TurnEmits | examples/arc_agi_3/viewer_event_exporter.py:405-437 | a turn emits, round by round and in order, its span, position, LLM time and the code time of its window, and then one step with their number |
| CodeCredit.EverySpanIsReported | examples/arc_agi_3/viewer_event_exporter.py:298-437 | however events are counted, rounds apart they are exactly: one REPL run per code span and one call per LLM span with input, each at its start, and one step per turn at its end |
| CodeCredit.OnTimeCodeIsCredited | examples/arc_agi_3/viewer_event_exporter.py:400-425 | code handled before its turn, with earlier turns over by its start, is credited to every round that takes it |
| StableSort.SortIsStable | examples/arc_agi_3/viewer_event_exporter.py:270-271 | events with equal times keep their order |
| CodeCredit.ReportedIsCredited | examples/arc_agi_3/viewer_event_exporter.py:410-425 | the REPL time a turn reports is each code span's time, once for every round that takes it |
| CodeCredit.InstantCreditedTwiceIff | examples/arc_agi_3/viewer_event_exporter.py:405-425 | some instant of a turn is credited to two rounds iff for some i < j both end before round i + 1 starts, inside the turn |
| CodeCredit.CodeCreditedTwiceIff | examples/arc_agi_3/viewer_event_exporter.py:393-425 | a code span handled before the turn can be credited twice iff the turn's rounds overlap in that sense |
| CodeCredit.CreditsNeverExceedArrivals | examples/arc_agi_3/viewer_event_exporter.py:405-445 | rounds credited with a code span plus its records still buffered never exceed its arrivals |
| CodeCredit.CreditIsConserved | examples/arc_agi_3/viewer_event_exporter.py:405-445 | credited plus still buffered code time never grows by more than the code time that arrives |
| CodeCredit.BackwardSpanCreditsTwice | examples/arc_agi_3/viewer_event_exporter.py:405-425 | four handled spans, one of which ends before it starts, credit 3 ns of code twice |
| Attribution.EmittedOnceIffHandledFirst | examples/arc_agi_3/viewer_event_exporter.py:393-445 | with turns in time order an agent round inside a turn is emitted exactly once if handled before it, else never |
| ExportedBatches.EmittedOnceIffExportedInTime | examples/arc_agi_3/viewer_event_exporter.py:240-279 | with no batch lost and turns in time order, an agent round inside a turn is emitted exactly once iff its span was exported no later than the batch of its turn, however often it is repeated |
| ExportedBatches.FirstExportIsHandled | examples/arc_agi_3/viewer_event_exporter.py:246-250 | the first export of a key is the one that is handled |
| Rhae.LevelScoreIs | examples/arc_agi_3/arc_agi_3/rhae.py:19-27 | a level scores the square of baseline over actions where that is at most 115%, else 115%, and 0 for non-positive numbers |
| Rhae.OneLevelWeighs | examples/arc_agi_3/arc_agi_3/rhae.py:41-59 | changing the score of level k + 1 changes the weighted sum by k + 1 times the change |
| Rhae.PerfectLevelsSum | examples/arc_agi_3/arc_agi_3/rhae.py:30-34 | perfect scores on n levels sum to the weight of n levels |
| Rhae.EnvScoreIsMonotone | examples/arc_agi_3/arc_agi_3/rhae.py:30-59 | the environment score is within [0, 1], monotone in scores and completed levels, and at most the completed fraction |
| Rhae.ScoreFromLevelScores | examples/arc_agi_3/arc_agi_3/rhae.py:41-59 | the accumulating loop computes the weighted score |
| Rhae.EnvironmentScore | examples/arc_agi_3/arc_agi_3/rhae.py:62-80 | the score list and score of a finished run |
| Rhae.Bounds | examples/arc_agi_3/arc_agi_3/rhae.py:83-119 | computes L and U; the final max never changes U |
| Rhae.BoundsAreOrdered | examples/arc_agi_3/arc_agi_3/rhae.py:83-119 | 0 <= L <= U <= 1 and L is at most the completed fraction |
| Rhae.LowerIsReached | examples/arc_agi_3/arc_agi_3/rhae.py:83-119 | L is the score of the run if it stops now |
| LiveBounds.UpperIsReached | examples/arc_agi_3/arc_agi_3/rhae.py:83-119 | U is the score of the run whose next action solves the level, with every later level at exactly 100% |
| Rhae.LowerNeverDecreases | examples/arc_agi_3/arc_agi_3/rhae.py:83-119 | L never decreases as levels complete |
| Rhae.UpperBoundsContinuations | examples/arc_agi_3/arc_agi_3/rhae.py:83-119 | every continuation with at least one more action on the current level and at most 100% on each later one ends at or below U |
| Rhae.UpperBoundsIffBest | examples/arc_agi_3/arc_agi_3/rhae.py:83-119 | for any baselines U bounds every continuation iff it bounds the one with a single action on every later level |
| Rhae.UpperBoundsEveryContinuationIff | examples/arc_agi_3/arc_agi_3/rhae.py:83-119 | with positive later baselines U bounds every continuation iff U = 1 or every later baseline is 1 |
| Rhae.UpperCanBeExceeded | examples/arc_agi_3/arc_agi_3/rhae.py:19-27 | a run that ends above its earlier U |
| LiveBounds.PlayIsCounted | examples/arc_agi_3/harness.py:538-600 | the harness's level, action count and reported counts are functions of the log of calls, over every batch: each completed level reports, in order, the actions played on it |
| LiveBounds.ShownActionsAreAhead | examples/arc_agi_3/viewer.py:319-327 | where levels never fall and no RESET completes one, the viewer's level is the harness's and its action count is ahead by exactly the RESETs of the level |
| LiveBounds.ShownUpperFallsShortIff | examples/arc_agi_3/viewer.py:332-341 | the shown U is exceeded by solving the level with the next action iff it is below 1 and the level scores less for the counted actions |
| LayerMerge.MergeKeepsNullFree | src/nooa/layered_config.py:144-162 | a null-free base stays null-free at every mapping depth |
| LayerMerge.MergeIsIdempotent | src/nooa/layered_config.py:144-162 | merging a layer twice is merging it once |
| LayerMerge.MergeIsCongruent | src/nooa/layered_config.py:144-162 | a difference a layer hides is still hidden by it after any layer in between |
| MergeInPlace.DeepMerge | src/nooa/layered_config.py:144-162 | the in-place key loop computes MergePatch, leaves the overlay as it was, and the mapping trees of the two, which lists are leaves of, share no object |
| MergeInPlace.MergeKey | src/nooa/layered_config.py:151-161 | one key: delete on null, recurse into mappings, replace otherwise |
| MergeInPlace.MergedOnOneMore | src/nooa/layered_config.py:151-161 | merging key by key, in any order, composes to the merge of the whole overlay |
| LayerChain.Chain.Push | src/nooa/layered_config.py:106-119 | chain is the pushes with only last occurrences kept and seen its exact inverse index |
| LayerChain.Chain.ShiftAbove | src/nooa/layered_config.py:111-117 | the index loop lowers exactly the positions above the removed one |
| LayerChain.RemovalKeepsInverse | src/nooa/layered_config.py:111-117 | removal with index shifting keeps the index inverse |
| LayerChain.KeepLastIsDistinct | src/nooa/layered_config.py:106-119 | the kept chain has no duplicates |
| LayerChain.KeepLastElements | src/nooa/layered_config.py:106-119 | it holds exactly the pushed paths |
| LayerChain.KeepLastIsOrdered | src/nooa/layered_config.py:106-119 | it is in the order of last pushes |
| LayerChain.LayeredPaths | src/nooa/layered_config.py:84-141 | the existing files, each once, ordered by the highest layer that names them - defaults, user, project, environment - and within the defaults and the environment by last mention |
| LayeredConfig.DedupIsInvisible | src/nooa/layered_config.py:34-38 | for every push sequence and any contents, folding the keep-last chain equals folding the whole sequence |
| LayeredConfig.HiddenDifferenceVanishes | src/nooa/layered_config.py:34-38 | bases that a layer makes equal end equal over every list that still holds the layer |
| LayeredConfig.FirstOccurrenceWouldLose | src/nooa/layered_config.py:34-38 | keeping first occurrences instead changes the result |
| LayeredConfig.LoadedIsNullFree | src/nooa/layered_config.py:165-195 | a loaded configuration holds no null at any mapping depth; lists are leaves |
| LayeredLoader.LoadLayeredYaml | src/nooa/layered_config.py:165-195 | the result is the merge of every push, repeats included; at every path of keys its leaf is that of the last environment file that settles the path, else the project's, the user's, the last default's; its mapping tree, down to the lists, is null-free and of new objects only; documents unchanged |
| LayerLists.MergeLeaves | src/nooa/layered_config.py:151-161 | every list of an overlay survives its merge, and none comes from elsewhere than the overlay and the base |
| LayerLists.MergedLeafAt | src/nooa/layered_config.py:151-161 | at every path a merge has the overlay's leaf where the overlay settles the path, and the base's elsewhere |
| LayerLists.LoadedLeafIff | src/nooa/layered_config.py:182-195 | a loaded configuration has a leaf at a path iff some document has it there and no later one settles the path otherwise |
| LayerLists.LoadedHasNullIff | src/nooa/layered_config.py:182-195 | it holds a null, lists included, iff some document holds a list with a null at a path that no later document settles |
| LayerLists.CopySharesIff | src/nooa/layered_config.py:156-161 | a copy by merging onto {} shares a mapping object with its original iff a list of the original holds a mapping |
| LayerLists.LoadedSharesIff | src/nooa/layered_config.py:182-195 | it reaches a given mapping object through a list iff some document holds a list with that object at a path that no later document settles |
| TruncatingStream.TruncatingStringIO.Write | src/nooa/agentdoc/_truncating_stream.py:65-87 | the buffer holds the first h and last t characters of everything written, at most limit in all |
| TruncatingStream.TruncatingStringIO.AddToTail | src/nooa/agentdoc/_truncating_stream.py:89-101 | the eviction loop ends with exactly the last t characters |
| TruncatingStream.TruncatingStringIO.GetValue | src/nooa/agentdoc/_truncating_stream.py:107-121 | the whole text iff it fits the limit, else head, tail and a dropped count of length minus limit |
| TruncatingStream.WriteAll | src/nooa/agentdoc/_truncating_stream.py:65-87 | any split of a text into writes leaves the same buffer |
| TruncatingStream.HeadAndTail | src/nooa/agentdoc/_truncating_stream.py:45-63 | head and tail never overlap, stay within the limit, and are the text iff nothing was dropped |
| TruncatingStream.FileBackedStream.Write | src/nooa/agentdoc/_truncating_stream.py:193-202 | the buffer gets the text iff the file write raises no error other than OSError, which a closed file does; an OSError never reaches the caller, and an unfailed file holds everything the buffer was given |
| SkillRuns.StepKeepsNested | src/nooa/skill_registry.py:337-499 | every operation keeps activated within loaded within discovered, the attribute map's keys equal to loaded and its values `_attr_name`, whatever loading does |
| SkillRuns.RunKeepsNested | src/nooa/skill_registry.py:337-499 | so does every sequence of load, register, activate, deactivate and reload, failed reloads included |
| SkillRuns.StepKeepsTidy | src/nooa/skill_registry.py:530-554 | every admissible operation keeps each skill its own attribute and the context exact |
| SkillRuns.RunKeepsTidy | src/nooa/skill_registry.py:530-554 | after every admissible sequence, failed reloads included, the context is the agent's own blocks and exactly those of the activated skills |
| SkillLifecycle.ReloadKeepsTidy | src/nooa/skill_registry.py:810-814 | the swap of a reload keeps it exact |
| SkillLifecycle.RegisterAgainIsExactIff | src/nooa/skill_registry.py:379-428 | registering a loaded name again keeps the context exact iff it is not activated or the block is the same |
| SkillLifecycle.HidingIsExactIff | src/nooa/skill_registry.py:543-554 | however attributes and keys are shared, hiding a skill keeps the context exact iff it has no block, or its key is protected exactly if the agent or another activated skill declares it |
| SkillLifecycle.ShowingIsExactIff | src/nooa/skill_registry.py:530-541 | showing one does iff it has no block, or its key is protected and the context has its expression already, or it is not and neither the agent nor another activated skill has another expression under it |
| SkillLifecycle.FailedLoadKeepsAttributesIff | src/nooa/skill_registry.py:371-377 | a load after which the name is not loaded leaves the attributes alone iff the attribute is reserved, nothing was constructed, or it held that skill already |
| SkillLifecycle.FailedRegisterKeepsAttributesIff | src/nooa/skill_registry.py:409-424 | so for register |
| SkillLifecycle.SharedAttributeLosesBlock | src/nooa/skill_registry.py:493-508 | two activated skills with one leaf name: hiding one removes the other's block |
| SkillLifecycle.SharedAttributeIsReached | src/nooa/skill_registry.py:438-468 | activating two such skills reaches that state |
| SkillClosure.ResolveCloses | src/nooa/skill_registry.py:470-491 | the depth-first walk, on any graph with cycles, leaves every visited skill's dependencies visited or out of reach, and loads only names below its root |
| SkillClosure.ActivateClosesDependencies | src/nooa/skill_registry.py:438-491 | after activate every name on a chain of dependencies from a matched one is loaded, undiscovered or unloadable |
| SkillClosure.ActivateAddsOnlyDependencies | src/nooa/skill_registry.py:438-491 | activated grows by the matched names alone, and every other new skill is a dependency of a matched one |
| SkillReload.FailureChangesNothing | src/nooa/skill_registry.py:645-822 | whichever step fails, attributes, loaded, activated and context are as before; success iff every step succeeds |
| SkillReload.OldIsReattachedOnce | src/nooa/skill_registry.py:645-669 | a reload that fails after trying to detach attaches the old skill again exactly once; any other never does |
| SkillReload.WhoIsAttached | src/nooa/skill_registry.py:645-822 | exactly which skills are attached after every outcome |
| SkillReload.OldSurvivesFailureIff | src/nooa/skill_registry.py:655-669 | after a failure the old skill is attached as before iff it was not detached or its second attach succeeds |
| SkillReload.NewIsAloneIff | src/nooa/skill_registry.py:645-653 | after success the new skill alone is attached iff the old one has a detach |
| SkillReload.SuccessSwaps | src/nooa/skill_registry.py:810-814 | success changes one attribute and, iff activated, replaces the old block by the new |
| SkillReload.ReloadKeepsRegistryTidy | src/nooa/skill_registry.py:766-822 | a reload, however it goes, keeps the context exact |
| SkillReload.PurgedModules | src/nooa/skill_registry.py:689-698 | a reload that gets to importing a package purges exactly the modules whose first component it is, and has the package back iff the import succeeds |
| SkillReload.CanBeRetriedIff | src/nooa/skill_registry.py:671-710 | after a failure the skill can be reloaded again iff it was not its package's import that failed |
| SkillReload.PurgedPackageStaysRefused | src/nooa/skill_registry.py:671-710 | after a failed package import the next reload is refused and changes nothing |
| SkillModel.AttributeIs | src/nooa/skill_registry.py:505-508 | the attribute of a name is the part after its last dot, or all of a name without dots, with an underscore for every dash, and nothing else |
| SkillReload.LeafNamesOne | src/nooa/skill_registry.py:585-612 | a name that spells the attribute of exactly one loaded skill resolves to it, and is ambiguous iff it spells another's too |
| SkillRegistry.SkillRegistry.Load | src/nooa/skill_registry.py:337-377 | loads exactly the matched names whose loading can succeed, in whatever order they are visited, each as the attribute spelt from its leaf where no two names share one, and keeps a tidy registry tidy |
| SkillRegistry.SkillRegistry.Register | src/nooa/skill_registry.py:379-428 | refuses exactly the reserved attributes and then changes nothing; otherwise the agent holds the skill as the attribute spelt from the name's leaf, loaded iff no attach raised; keeps a tidy registry tidy |
| SkillRegistry.SkillRegistry.Match | src/nooa/skill_registry.py:930-938 | exactly the candidates some pattern matches |
| SkillRegistry.SkillRegistry.ResolveDeps | src/nooa/skill_registry.py:470-491 | the recursion with one shared visited set terminates and is the specification's walk |
| SkillRegistry.SkillRegistry.Activate | src/nooa/skill_registry.py:438-468 | on the object: activated grows by the matches, every dependency of a match is loaded or out of reach, nothing else is loaded, a tidy registry stays tidy |
| SkillRegistry.SkillRegistry.Deactivate | src/nooa/skill_registry.py:493-499 | hides exactly the matched activated names and keeps a tidy registry tidy |
| SkillRegistry.SkillRegistry.Reload | src/nooa/skill_registry.py:623-822 | on the object: success iff every step succeeds; on failure attributes and context are as before and attachments too iff the old skill was not detached or is attached again; on success the attribute holds the new skill; a tidy registry stays tidy |

## Left out

- The turn protocol: texts of notes, grid and diff, recorder and viewer calls, timestamps; channels other than waking the
  agent and delivering states; a state line half written when the agent reads it; a directly written action line with
  no actions in it; the agent's effort ladder.
- ActionReader.Reader.NextBatch: does not model universal-newline translation of '\r' or the opaque cookies of text-mode
  `seek` and `tell`; the line codec is a parameter, and an action line that is JSON but no object, on which the harness
  raises, is none of its records.
- HarnessLoop.Harness.RunLoop: is stated for a number of rounds the caller picks, because the loop need not end; the
  bound on that number is what it promises.
- ViewerEvents.GameStats.UpdateWith: does not model first and last timestamps, the sums of times, or integers too large for
  a float; the key of a model is a field of the event, and baselines are a list of integers.
- EventExporter.Exporter.Export: does not model prompt events, per-step block numbers, errors while the file is written, or
  the rounding of seconds to three decimals (times are whole nanoseconds).
- Rhae and ViewerStats: reals in place of floating point.
- TruncatingStream.TruncatingStringIO.constructor: asks for tail_chars <= limit; the removal of the file and the wording of
  the notice are not modelled.
- TruncatingStream.FileBackedStream.Write: takes it that an error other than OSError strikes before any of the text has
  reached the file, as encoding errors and closed files do.
- MergeInPlace.DeepMerge: the order of keys is not modelled.
- LayerChain.LayeredPaths: path resolution and the existence test are parameters.
- SkillRegistry.SkillRegistry.Load: discovery, entry points and `importlib` are a fixed outcome per name; `fnmatch` is an
  abstract predicate.
- SkillRegistry.SkillRegistry.Activate: asks that discovered names contain no glob characters; hidden flags and the
  refresh of slash commands are not modelled.
- SkillRegistry.SkillRegistry.Register: construction from a class and a skill attached to another agent are not modelled.
- SkillReload.CanBeRetriedIff: takes it that a successful import puts the package back into `sys.modules` and a failed
  one does not; submodules that an import brings back are not modelled.
- Reloading every loaded skill at once, which is a plain sequence of single reloads.
- `SkillClosure` assumes that no two discovered skills share an attribute; without that a dependency may be overwritten.
- LLM calls, tracing backends, MCP, sandboxes, rendering, prompt building and agent decoration: glue over libraries.
