/**
 The exporter's guarantees over any sequence of `export` calls, whatever the batches repeat and whichever of them are lost.
 */
module ExportedBatches {
  import opened Options
  import opened StableSort
  import opened EventExporter
  import opened Attribution
  import opened CodeCredit

  function ExportAll(b: Buffers, seen: set<nat>, batches: seq<seq<Span>>): Buffers
    decreases |batches|
  {
    if batches == [] then b
    else ExportAll(ExportBatch(b, seen, batches[0]), SeenAfter(seen, batches[0]), batches[1..])
  }

  /** Every span of the batches that is picked out carries this key. */
  ghost predicate AllKeyed(batches: seq<seq<Span>>, picks: Span -> bool, key: nat) {
    forall i :: 0 <= i < |batches| ==> Keyed(batches[i], picks, key)
  }

  ghost predicate Keyed(batch: seq<Span>, picks: Span -> bool, key: nat) {
    forall i :: 0 <= i < |batch| && picks(batch[i]) ==> batch[i].key == Some(key)
  }

  ghost function Count(spans: seq<Span>, picks: Span -> bool): nat {
    if spans == [] then 0 else (if picks(spans[0]) then 1 else 0) + Count(spans[1..], picks)
  }

  lemma {:induction false} CountAppend(a: seq<Span>, b: seq<Span>, picks: Span -> bool)
    ensures Count(a + b, picks) == Count(a, picks) + Count(b, picks)
  {
    if a == [] {
      assert a + b == b;
    } else {
      CountAppend(a[1..], b, picks);
      assert (a + b)[1..] == a[1..] + b;
    }
  }

  /** A key is let through once. */
  lemma {:induction false} UnseenOnce(seen: set<nat>, batch: seq<Span>, picks: Span -> bool, key: nat)
    requires Keyed(batch, picks, key)
    ensures Count(Unseen(seen, batch), picks) <= if key !in seen && key in Keys(batch) then 1 else 0
    decreases |batch|
  {
    if batch != [] {
      var span := batch[0];
      var seen' := seen + Keys([span]);
      KeysOfOne(span);
      KeysAppend([span], batch[1..]);
      assert batch == [span] + batch[1..];
      assert Keyed(batch[1..], picks, key) by {
        forall i | 0 <= i < |batch[1..]| && picks(batch[1..][i]) ensures batch[1..][i].key == Some(key) {
          assert batch[1..][i] == batch[i + 1];
        }
      }
      if Repeated(seen, span) {
        UnseenOnce(seen, batch[1..], picks, key);
      } else {
        UnseenOnce(seen', batch[1..], picks, key);
        assert ([span] + Unseen(seen', batch[1..]))[1..] == Unseen(seen', batch[1..]);
      }
    }
  }

  lemma {:induction false} PartsCount(spans: seq<Span>, picks: Span -> bool)
    ensures Count(Children(spans), picks) + Count(Turns(spans), picks) == Count(spans, picks)
  {
    if spans != [] {
      PartsCount(spans[1..], picks);
      CountAppend(if spans[0].kind.Turn? then [] else [spans[0]], Children(spans[1..]), picks);
      CountAppend(if spans[0].kind.Turn? then [spans[0]] else [], Turns(spans[1..]), picks);
      assert [spans[0]][1..] == [];
    }
  }

  lemma CountOfPrefix(part: seq<Span>, whole: seq<Span>, picks: Span -> bool)
    requires part <= whole
    ensures Count(part, picks) <= Count(whole, picks)
  {
    assert whole == part + whole[|part|..];
    CountAppend(part, whole[|part|..], picks);
  }

  lemma {:induction false} ReachedIsPrefix(seen: set<nat>, batch: seq<Span>)
    ensures Reached(seen, batch) <= batch
    decreases |batch|
  {
    if batch != [] { ReachedIsPrefix(seen + Keys([batch[0]]), batch[1..]); }
  }

  lemma HandledOnce(seen: set<nat>, batch: seq<Span>, picks: Span -> bool, key: nat)
    requires Keyed(batch, picks, key)
    ensures Count(HandledPart(seen, batch), picks)
            <= if key !in seen && key in SeenAfter(seen, batch) then 1 else 0
  {
    var reached := Reached(seen, batch);
    var taken := Unseen(seen, reached);
    hide Reached, Unseen, Keys, Children, Turns, Sound, AnyFails;
    ReachedIsPrefix(seen, batch);
    UnseenOnce(seen, reached, picks, key);
    PartsCount(taken, picks);
    SoundTurns(Turns(taken));
    CountOfPrefix(Sound(Turns(taken)), Turns(taken), picks);
    var second := if AnyFails(Children(taken)) then [] else Sound(Turns(taken));
    assert Count([], picks) == 0;
    CountAppend(Children(taken), second, picks);
  }

  // --------------------------------------------------------------------------------------------------------- rounds

  function LlmOf(id: nat): Span -> bool {
    (span: Span) => span.kind.Llm? && span.id == id
  }

  lemma {:induction false} ArrivalsAreCounted(spans: seq<Span>, id: nat)
    ensures Arrivals(spans, id) == Count(spans, LlmOf(id))
  {
    if spans != [] { ArrivalsAreCounted(spans[1..], id); }
  }

  lemma {:induction false} RoundsOfBatches(b: Buffers, seen: set<nat>, batches: seq<seq<Span>>, id: nat, key: nat)
    requires AllKeyed(batches, LlmOf(id), key)
    ensures
      var after := ExportAll(b, seen, batches);
      RoundsEmitted(after.emitted, id) + Total(after.llm, RecordOf(id))
      <= RoundsEmitted(b.emitted, id) + Total(b.llm, RecordOf(id)) + if key in seen then 0 else 1
    decreases |batches|
  {
    if batches != [] {
      var batch := batches[0];
      assert Keyed(batches[0], LlmOf(id), key);
      assert forall i :: 0 <= i < |batches| - 1 ==> batches[1..][i] == batches[i + 1];
      hide HandledPart, Lost;
      var handled := HandledPart(seen, batch);
      HandledOnce(seen, batch, LlmOf(id), key);
      ArrivalsAreCounted(handled, id);
      RoundsNeverExceedArrivals(b, handled, id);
      EmittedStays(b, handled, id);
      var next := ExportBatch(b, seen, batch);
      RoundsOfBatches(next, SeenAfter(seen, batch), batches[1..], id, key);
    }
  }

  /** Over any sequence of export batches, overlapping ones and lost ones included, an LLM span that always carries the same
      key closes at most one round. */
  lemma AtMostOneRoundPerSpan(batches: seq<seq<Span>>, id: nat, key: nat)
    requires AllKeyed(batches, LlmOf(id), key)
    ensures RoundsEmitted(ExportAll(EMPTY, {}, batches).emitted, id) <= 1
  {
    RoundsOfBatches(EMPTY, {}, batches, id, key);
    RecordTotalsArePositive(ExportAll(EMPTY, {}, batches).llm, id);
  }

  // ------------------------------------------------------------------------------------------------------------ code

  function CodeSpanOf(id: nat): Span -> bool {
    (span: Span) => span.kind.Code? && span.id == id
  }

  lemma {:induction false} CodeArrivalsAreCounted(spans: seq<Span>, id: nat)
    ensures CodeArrivals(spans, id) == Count(spans, CodeSpanOf(id))
  {
    if spans != [] { CodeArrivalsAreCounted(spans[1..], id); }
  }

  /** The rounds credited with a code span; the credits of a lost batch never reach the file. */
  ghost function CreditsOfBatches(b: Buffers, seen: set<nat>, batches: seq<seq<Span>>, id: nat): int
    decreases |batches|
  {
    if batches == [] then 0
    else
      (if Lost(seen, batches[0]) then 0 else Credits(b, HandledPart(seen, batches[0]), id))
      + CreditsOfBatches(ExportBatch(b, seen, batches[0]), SeenAfter(seen, batches[0]), batches[1..], id)
  }

  /** No turn that is handled has rounds that overlap. */
  ghost predicate BatchesApart(b: Buffers, seen: set<nat>, batches: seq<seq<Span>>)
    decreases |batches|
  {
    batches != [] ==>
      && Apart(b, HandledPart(seen, batches[0]))
      && BatchesApart(ExportBatch(b, seen, batches[0]), SeenAfter(seen, batches[0]), batches[1..])
  }

  lemma {:induction false} CreditsAreNonNegative(b: Buffers, spans: seq<Span>, id: nat)
    ensures Credits(b, spans, id) >= 0
    decreases |spans|
  {
    if spans != [] {
      if spans[0].kind.Turn? {
        var credit := CreditOf(RoundsOf(b, spans[0]), spans[0].end, id);
        NonNegativeTotal(Sort(CodesIn(b.code, spans[0]), CODE_START), credit);
      }
      CreditsAreNonNegative(Handle(b, spans[0]), spans[1..], id);
    }
  }

  lemma {:induction false} NonNegativeTotal<T>(s: seq<T>, value: T -> int)
    requires forall x :: value(x) >= 0
    ensures Total(s, value) >= 0
  {
    if s != [] { NonNegativeTotal(s[..|s| - 1], value); }
  }

  lemma {:induction false} CreditsOfBatchesAreBounded(
    b: Buffers, seen: set<nat>, batches: seq<seq<Span>>, id: nat, key: nat)
    requires AllKeyed(batches, CodeSpanOf(id), key) && BatchesApart(b, seen, batches)
    ensures CreditsOfBatches(b, seen, batches, id) + Total(ExportAll(b, seen, batches).code, CodeOf(id))
            <= Total(b.code, CodeOf(id)) + if key in seen then 0 else 1
    decreases |batches|
  {
    if batches != [] {
      var batch := batches[0];
      assert Keyed(batches[0], CodeSpanOf(id), key);
      assert forall i :: 0 <= i < |batches| - 1 ==> batches[1..][i] == batches[i + 1];
      hide HandledPart, Lost;
      var handled := HandledPart(seen, batch);
      HandledOnce(seen, batch, CodeSpanOf(id), key);
      CodeArrivalsAreCounted(handled, id);
      CreditsNeverExceedArrivals(b, handled, id);
      CreditsAreNonNegative(b, handled, id);
      CreditsOfBatchesAreBounded(ExportBatch(b, seen, batch), SeenAfter(seen, batch), batches[1..], id, key);
    }
  }

  /** Each code span's time goes to at most one round, over any export batches, as long as no turn has rounds that
      overlap. */
  lemma AtMostOneRoundPerCodeSpan(batches: seq<seq<Span>>, id: nat, key: nat)
    requires AllKeyed(batches, CodeSpanOf(id), key) && BatchesApart(EMPTY, {}, batches)
    ensures CreditsOfBatches(EMPTY, {}, batches, id) <= 1
  {
    CreditsOfBatchesAreBounded(EMPTY, {}, batches, id, key);
    NonNegativeTotal(ExportAll(EMPTY, {}, batches).code, CodeOf(id));
  }

  /** The code time of the spans that were handled, each once. */
  ghost function CodeTimeOfBatches(seen: set<nat>, batches: seq<seq<Span>>): nat
    decreases |batches|
  {
    if batches == [] then 0
    else CodeSpanTime(HandledPart(seen, batches[0])) + CodeTimeOfBatches(SeenAfter(seen, batches[0]), batches[1..])
  }

  lemma ReportedGrowsBy(b: Buffers, span: Span)
    ensures Total(b.emitted, REPL_TIME) <= Total(Handle(b, span).emitted, REPL_TIME)
  {
    if span.kind.Turn? {
      TurnReports(b, span);
      NonNegativeTotal(Sort(CodesIn(b.code, span), CODE_START), CreditedTime(RoundsOf(b, span), span.end));
    } else {
      TotalOneMore(b.emitted, LlmCall(span.start, span.id), REPL_TIME);
      TotalOneMore(b.emitted, ReplExecute(span.start, span.id), REPL_TIME);
    }
  }

  lemma {:induction false} ReportedOnlyGrows(b: Buffers, spans: seq<Span>)
    ensures Total(b.emitted, REPL_TIME) <= Total(HandleAll(b, spans).emitted, REPL_TIME)
    decreases |spans|
  {
    hide Handle, Total;
    if spans != [] {
      ReportedGrowsBy(b, spans[0]);
      ReportedOnlyGrows(Handle(b, spans[0]), spans[1..]);
    }
  }

  lemma {:induction false} ReplTimeOfBatches(b: Buffers, seen: set<nat>, batches: seq<seq<Span>>)
    requires BatchesApart(b, seen, batches)
    ensures
      var after := ExportAll(b, seen, batches);
      Total(after.emitted, REPL_TIME) + Total(after.code, CODE_TIME)
      <= Total(b.emitted, REPL_TIME) + Total(b.code, CODE_TIME) + CodeTimeOfBatches(seen, batches)
    decreases |batches|
  {
    if batches != [] {
      hide HandledPart, Lost;
      var handled := HandledPart(seen, batches[0]);
      CreditIsConserved(b, handled);
      ReportedOnlyGrows(b, handled);
      ReplTimeOfBatches(ExportBatch(b, seen, batches[0]), SeenAfter(seen, batches[0]), batches[1..]);
    }
  }

  /** The REPL time reported is at most the time of the code spans, a span exported twice counted once. */
  lemma ReplTimeIsBounded(batches: seq<seq<Span>>)
    requires BatchesApart(EMPTY, {}, batches)
    ensures Total(ExportAll(EMPTY, {}, batches).emitted, REPL_TIME) <= CodeTimeOfBatches({}, batches)
  {
    ReplTimeOfBatches(EMPTY, {}, batches);
    NonNegativeTotal(ExportAll(EMPTY, {}, batches).code, CODE_TIME);
  }

  ghost predicate ForwardBatches(batches: seq<seq<Span>>) {
    forall i :: 0 <= i < |batches| ==> ForwardSpans(batches[i])
  }

  /** Agent spans whose clocks run forward never overlap. */
  lemma {:induction false} ForwardBatchesAreApart(b: Buffers, seen: set<nat>, batches: seq<seq<Span>>)
    requires ForwardBatches(batches) && ForwardRecords(b.llm)
    ensures BatchesApart(b, seen, batches)
    decreases |batches|
  {
    if batches != [] {
      hide HandledPart, Lost;
      var handled := HandledPart(seen, batches[0]);
      HandledElements(seen, batches[0]);
      assert ForwardSpans(batches[0]);
      forall i | 0 <= i < |handled| && handled[i].kind.Llm? && handled[i].kind.agentRound
        ensures handled[i].start <= handled[i].end {
        assert handled[i] in batches[0];
      }
      ForwardIsApart(b, handled);
      assert forall i :: 0 <= i < |batches| - 1 ==> batches[1..][i] == batches[i + 1];
      ForwardBatchesAreApart(ExportBatch(b, seen, batches[0]), SeenAfter(seen, batches[0]), batches[1..]);
    }
  }

  lemma {:induction false} UnseenElements(seen: set<nat>, batch: seq<Span>)
    ensures forall x :: x in Unseen(seen, batch) ==> x in batch
    decreases |batch|
  {
    if batch != [] {
      UnseenElements(seen, batch[1..]);
      UnseenElements(seen + Keys([batch[0]]), batch[1..]);
    }
  }

  lemma {:induction false} PartElements(spans: seq<Span>)
    ensures forall x :: x in Children(spans) <==> x in spans && !x.kind.Turn?
    ensures forall x :: x in Turns(spans) <==> x in spans && x.kind.Turn?
  {
    if spans != [] { PartElements(spans[1..]); }
  }

  lemma HandledElements(seen: set<nat>, batch: seq<Span>)
    ensures forall x :: x in HandledPart(seen, batch) ==> x in batch
  {
    var reached := Reached(seen, batch);
    var taken := Unseen(seen, reached);
    hide Reached, Unseen, Children, Turns, Sound, AnyFails;
    ReachedIsPrefix(seen, batch);
    UnseenElements(seen, reached);
    PartElements(taken);
    SoundTurns(Turns(taken));
    var children := Children(taken);
    var turns := if AnyFails(children) then [] else Sound(Turns(taken));
    forall x | x in HandledPart(seen, batch) ensures x in batch {
      assert HandledPart(seen, batch) == children + turns;
      assert x in children || x in turns;
      assert x in turns ==> x in Turns(taken);
      assert x in taken;
      assert x in reached;
    }
  }

  // ---------------------------------------------------------------------------------------------------- exactly once

  /** The spans in the order in which they are handled. */
  function HandledAll(seen: set<nat>, batches: seq<seq<Span>>): seq<Span>
    decreases |batches|
  {
    if batches == [] then []
    else HandledPart(seen, batches[0]) + HandledAll(SeenAfter(seen, batches[0]), batches[1..])
  }

  predicate NoneLost(seen: set<nat>, batches: seq<seq<Span>>)
    decreases |batches|
  {
    batches != [] ==> !Lost(seen, batches[0]) && NoneLost(SeenAfter(seen, batches[0]), batches[1..])
  }

  /** The keys seen before batch `i`, and the number of spans handled before it. */
  function SeenBefore(seen: set<nat>, batches: seq<seq<Span>>, i: nat): set<nat>
    requires i <= |batches|
    decreases i
  {
    if i == 0 then seen else SeenBefore(SeenAfter(seen, batches[0]), batches[1..], i - 1)
  }

  function Offset(seen: set<nat>, batches: seq<seq<Span>>, i: nat): nat
    requires i <= |batches|
    decreases i
  {
    if i == 0 then 0
    else |HandledPart(seen, batches[0])| + Offset(SeenAfter(seen, batches[0]), batches[1..], i - 1)
  }

  /** The spans that batch `i` adds. */
  function PartAt(batches: seq<seq<Span>>, i: nat): seq<Span>
    requires i < |batches|
  {
    HandledPart(SeenBefore({}, batches, i), batches[i])
  }

  lemma {:induction false} ExportIsHandle(b: Buffers, seen: set<nat>, batches: seq<seq<Span>>)
    requires NoneLost(seen, batches)
    ensures ExportAll(b, seen, batches) == HandleAll(b, HandledAll(seen, batches))
    decreases |batches|
  {
    if batches != [] {
      hide HandledPart, Lost;
      var part := HandledPart(seen, batches[0]);
      HandleAppend(b, part, HandledAll(SeenAfter(seen, batches[0]), batches[1..]));
      ExportIsHandle(HandleAll(b, part), SeenAfter(seen, batches[0]), batches[1..]);
    }
  }

  lemma {:induction false} SpanAt(seen: set<nat>, batches: seq<seq<Span>>, i: nat, k: nat)
    requires i < |batches| && k < |HandledPart(SeenBefore(seen, batches, i), batches[i])|
    ensures
      var p := Offset(seen, batches, i) + k;
      && p < |HandledAll(seen, batches)|
      && HandledAll(seen, batches)[p] == HandledPart(SeenBefore(seen, batches, i), batches[i])[k]
    decreases i
  {
    hide HandledPart;
    if i > 0 { SpanAt(SeenAfter(seen, batches[0]), batches[1..], i - 1, k); }
  }

  lemma {:induction false} OffsetsGrow(seen: set<nat>, batches: seq<seq<Span>>, i: nat, j: nat)
    requires i < j <= |batches|
    ensures Offset(seen, batches, i) + |HandledPart(SeenBefore(seen, batches, i), batches[i])| <= Offset(seen, batches, j)
    decreases i
  {
    hide HandledPart;
    if i > 0 { OffsetsGrow(SeenAfter(seen, batches[0]), batches[1..], i - 1, j - 1); }
  }

  lemma {:induction false} AllHandledOnce(seen: set<nat>, batches: seq<seq<Span>>, picks: Span -> bool, key: nat)
    requires AllKeyed(batches, picks, key)
    ensures Count(HandledAll(seen, batches), picks) <= if key in seen then 0 else 1
    decreases |batches|
  {
    if batches != [] {
      hide HandledPart;
      assert Keyed(batches[0], picks, key);
      assert forall i :: 0 <= i < |batches| - 1 ==> batches[1..][i] == batches[i + 1];
      HandledOnce(seen, batches[0], picks, key);
      AllHandledOnce(SeenAfter(seen, batches[0]), batches[1..], picks, key);
      CountAppend(HandledPart(seen, batches[0]), HandledAll(SeenAfter(seen, batches[0]), batches[1..]), picks);
    }
  }

  lemma {:induction false} CountedIfPresent(spans: seq<Span>, picks: Span -> bool, p: nat)
    requires p < |spans| && picks(spans[p])
    ensures Count(spans, picks) >= 1
  {
    if p > 0 { CountedIfPresent(spans[1..], picks, p - 1); }
  }

  /** Within a batch, children come before turns. */
  lemma ChildBeforeTurn(seen: set<nat>, batch: seq<Span>, k: nat, l: nat)
    requires k < |HandledPart(seen, batch)| && l < |HandledPart(seen, batch)|
    requires !HandledPart(seen, batch)[k].kind.Turn? && HandledPart(seen, batch)[l].kind.Turn?
    ensures k < l
  {
    var taken := Unseen(seen, Reached(seen, batch));
    hide Unseen, Reached, Children, Turns, Sound, AnyFails;
    var children := Children(taken);
    PartElements(taken);
    SoundTurns(Turns(taken));
    var turns := if AnyFails(children) then [] else Sound(Turns(taken));
    var part := HandledPart(seen, batch);
    assert part == children + turns;
    assert forall m :: 0 <= m < |children| ==> children[m] in children;
    assert forall m :: 0 <= m < |turns| ==> turns[m] in Turns(taken);
    assert forall m :: 0 <= m < |part| ==> (part[m].kind.Turn? <==> m >= |children|);
  }

  /** No handler of a span that is handled raises. */
  lemma {:induction false} NoneFails(seen: set<nat>, batches: seq<seq<Span>>, i: nat, k: nat)
    requires NoneLost(seen, batches) && i < |batches|
    requires k < |HandledPart(SeenBefore(seen, batches, i), batches[i])|
    ensures !Fails(HandledPart(SeenBefore(seen, batches, i), batches[i])[k])
    decreases i
  {
    hide HandledPart;
    if i > 0 {
      NoneFails(SeenAfter(seen, batches[0]), batches[1..], i - 1, k);
    } else {
      WholeIsSound(seen, batches[0], k);
    }
  }

  lemma WholeIsSound(seen: set<nat>, batch: seq<Span>, k: nat)
    requires !Lost(seen, batch) && k < |HandledPart(seen, batch)|
    ensures !Fails(HandledPart(seen, batch)[k])
  {
    hide Fails, HandledPart, Unseen, Children, Turns;
    WholeBatch(seen, batch);
    var unseen := Unseen(seen, batch);
    PartElements(unseen);
    var span := HandledPart(seen, batch)[k];
    assert span in HandlingOrder(seen, batch);
    assert span in unseen;
  }

  /** A child of batch `i` is handled before a turn of batch `j` exactly when `i` is not later than `j`. */
  lemma HandledInOrder(batches: seq<seq<Span>>, i: nat, k: nat, j: nat, l: nat)
    requires i < |batches| && k < |PartAt(batches, i)| && j < |batches| && l < |PartAt(batches, j)|
    requires !PartAt(batches, i)[k].kind.Turn? && PartAt(batches, j)[l].kind.Turn?
    ensures Offset({}, batches, i) + k < Offset({}, batches, j) + l <==> i <= j
  {
    hide HandledPart, Offset, SeenBefore;
    if i < j { OffsetsGrow({}, batches, i, j); }
    if j < i { OffsetsGrow({}, batches, j, i); }
    if i == j { ChildBeforeTurn(SeenBefore({}, batches, i), batches[i], k, l); }
  }

  /** With no batch lost and turns in time order, the round of an agent span inside a turn is emitted exactly once if the
      span was exported no later than the batch of its turn, in whatever order that batch lists them and however often
      other batches repeat it, and never otherwise. */
  lemma EmittedOnceIffExportedInTime(
    batches: seq<seq<Span>>, i: nat, k: nat, j: nat, l: nat, key: nat)
    requires NoneLost({}, batches) && TurnsInOrder(HandledAll({}, batches))
    requires i < |batches| && k < |PartAt(batches, i)| && j < |batches| && l < |PartAt(batches, j)|
    requires
      var (x, turn) := (PartAt(batches, i)[k], PartAt(batches, j)[l]);
      && x.kind == Llm(true, true) && turn.kind.Turn? && InWindow(x.start, turn)
      && AllKeyed(batches, LlmOf(x.id), key)
    ensures RoundsEmitted(ExportAll(EMPTY, {}, batches).emitted, PartAt(batches, i)[k].id) == if i <= j then 1 else 0
  {
    hide HandledPart, NoneLost, Lost, Offset, SeenBefore, HandledAll, ExportAll, HandleAll;
    var x := PartAt(batches, i)[k];
    var spans := HandledAll({}, batches);
    var p, q := Offset({}, batches, i) + k, Offset({}, batches, j) + l;
    SpanAt({}, batches, i, k);
    SpanAt({}, batches, j, l);
    ExportIsHandle(EMPTY, {}, batches);
    AllHandledOnce({}, batches, LlmOf(x.id), key);
    CountedIfPresent(spans, LlmOf(x.id), p);
    ArrivalsAreCounted(spans, x.id);
    HandledInOrder(batches, i, k, j, l);
    NoneFails({}, batches, i, k);
    EmittedOnceIffHandledFirst(spans, p, q);
  }

  /** A span whose key is new is among those its batch adds, at its first position there. */
  lemma FirstExportIsHandled(seen: set<nat>, before: seq<Span>, x: Span, after: seq<Span>)
    requires !Lost(seen, before + [x] + after)
    requires x.key.Some? ==> x.key.value !in seen && x.key.value !in Keys(before)
    ensures x in HandledPart(seen, before + [x] + after)
  {
    var batch := before + [x] + after;
    WholeBatch(seen, batch);
    UnseenKeeps(seen, before, x, after);
    PartElements(Unseen(seen, batch));
  }

  lemma {:induction false} UnseenKeeps(seen: set<nat>, before: seq<Span>, x: Span, after: seq<Span>)
    requires x.key.Some? ==> x.key.value !in seen && x.key.value !in Keys(before)
    ensures x in Unseen(seen, before + [x] + after)
    decreases |before|
  {
    var batch := before + [x] + after;
    if before == [] {
      assert batch[0] == x;
    } else {
      var first, rest := before[0], before[1..];
      assert before == [first] + rest;
      KeysAppend([first], rest);
      assert batch[0] == first && batch[1..] == rest + [x] + after;
      UnseenKeeps(seen, rest, x, after);
      UnseenKeeps(seen + Keys([first]), rest, x, after);
    }
  }

  /** The key is what makes it so: a span without one that is exported twice before its turn closes two rounds. */
  lemma KeylessSpanClosesTwoRounds(x: Span, turn: Span)
    requires x.key.None? && x.kind == Llm(true, true) && x.raises.Never?
    requires turn.kind.Turn? && turn.raises.Never? && InWindow(x.start, turn)
    ensures RoundsEmitted(ExportAll(EMPTY, {}, [[x], [x], [turn]]).emitted, x.id) == 2
  {
    var batches := [[x], [x], [turn]];
    assert batches[1..] == [[x], [turn]] && [[x], [turn]][1..] == [[turn]] && [[turn]][1..] == [];
    var b1 := Handle(EMPTY, x);
    var b2 := Handle(b1, x);
    var b3 := CloseTurn(b2, turn);
    BatchOfOne(EMPTY, {}, x);
    BatchOfOne(b1, {}, x);
    BatchOfOne(b2, {}, turn);
    assert ExportAll(b3, SeenAfter({}, [turn]), []) == b3;
    assert ExportAll(b2, {}, [[turn]]) == b3;
    assert ExportAll(b1, {}, [[x], [turn]]) == b3;
    var r := LlmRecord(x.id, x.start, x.end, true);
    assert b2.llm == [r, r];
    assert [r, r][1..] == [r] && [r][1..] == [];
    assert RoundsIn([r], turn) == [r];
    assert RoundsIn([r, r], turn) == [r, r];
    TurnAddsRounds(b2, turn, x.id);
    TotalCons(r, [r], RecordOf(x.id));
    TotalOneMore([], r, RecordOf(x.id));
    TotalCons(LlmCall(x.start, x.id), [LlmCall(x.start, x.id)], Closes(x.id));
    TotalOneMore([], LlmCall(x.start, x.id), Closes(x.id));
    assert [] + [r] == [r] && [r] + [r] == [r, r];
  }

  lemma BatchOfOne(b: Buffers, seen: set<nat>, span: Span)
    requires !Repeated(seen, span) && span.raises.Never?
    ensures ExportBatch(b, seen, [span]) == Handle(b, span)
    ensures SeenAfter(seen, [span]) == if span.key.Some? then seen + {span.key.value} else seen
  {
    KeysOfOne(span);
    assert [span][1..] == [];
    var seen' := seen + Keys([span]);
    NothingTaken(seen', b);
    assert Unseen(seen', []) == [] && Unseen(seen, [span]) == [span];
    assert !Lost(seen, [span]);
    WholeBatch(seen, [span]);
    assert HandlingOrder(seen, [span]) == [span];
    HandleAtMostOne(b, [span]);
  }
}
