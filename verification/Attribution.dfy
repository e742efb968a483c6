/**
 How the spans the exporter handles turn into rounds, in whatever order they come: a span closes no more rounds than it
 arrives times, and with turns in time order its round is emitted exactly once if and only if it is handled before its
 turn.
 */
module Attribution {
  import opened StableSort
  import opened EventExporter

  // ---------------------------------------------------------------------------------------------- at most one round

  /** 1 for a round_complete of the given span. */
  ghost function Closes(id: nat): Event -> int {
    (e: Event) => if e.RoundComplete? && e.span == id then 1 else 0
  }

  ghost function RecordOf(id: nat): LlmRecord -> int {
    (r: LlmRecord) => if r.id == id then 1 else 0
  }

  /** How many rounds of the span have been emitted. */
  ghost function RoundsEmitted(events: seq<Event>, id: nat): int {
    Total(events, Closes(id))
  }

  ghost function Arrivals(spans: seq<Span>, id: nat): nat {
    if spans == [] then 0
    else (if spans[0].kind.Llm? && spans[0].id == id then 1 else 0) + Arrivals(spans[1..], id)
  }

  lemma TotalCons<T>(x: T, s: seq<T>, value: T -> int)
    ensures Total([x] + s, value) == value(x) + Total(s, value)
  {
    TotalAppend([x], s, value);
    TotalOneMore([], x, value);
    assert [] + [x] == [x];
  }

  lemma {:induction false} OneEventPerRound(
    rounds: seq<LlmRecord>, depth: nat, codes: seq<CodeRecord>, end: int, id: nat)
    ensures RoundsEmitted(RoundEvents(rounds, depth, codes, end), id) == Total(rounds, RecordOf(id))
    decreases |rounds|
  {
    if rounds != [] {
      OneEventPerRound(rounds[1..], depth + 1, codes, end, id);
      var events := RoundEvents(rounds, depth, codes, end);
      TotalCons(events[0], events[1..], Closes(id));
      TotalCons(rounds[0], rounds[1..], RecordOf(id));
      assert events == [events[0]] + events[1..];
      assert rounds == [rounds[0]] + rounds[1..];
    }
  }

  /** A record inside the turn is not kept. */
  lemma {:induction false} ClosedOrKept(llm: seq<LlmRecord>, turn: Span, id: nat)
    ensures Total(RoundsIn(llm, turn), RecordOf(id)) + Total(LlmFrom(llm, turn.end), RecordOf(id))
            <= Total(llm, RecordOf(id))
    ensures 0 <= Total(RoundsIn(llm, turn), RecordOf(id)) && 0 <= Total(LlmFrom(llm, turn.end), RecordOf(id))
  {
    if llm != [] {
      ClosedOrKept(llm[1..], turn, id);
      assert llm == [llm[0]] + llm[1..];
      TotalCons(llm[0], llm[1..], RecordOf(id));
      TotalCons(llm[0], RoundsIn(llm[1..], turn), RecordOf(id));
      TotalCons(llm[0], LlmFrom(llm[1..], turn.end), RecordOf(id));
      assert [] + RoundsIn(llm[1..], turn) == RoundsIn(llm[1..], turn);
      assert [] + LlmFrom(llm[1..], turn.end) == LlmFrom(llm[1..], turn.end);
    }
  }

  /** The events a turn adds: its rounds, then the step. */
  lemma TurnAddsRounds(b: Buffers, turn: Span, id: nat)
    ensures RoundsEmitted(CloseTurn(b, turn).emitted, id)
            == RoundsEmitted(b.emitted, id) + Total(RoundsIn(b.llm, turn), RecordOf(id))
  {
    var rounds := Sort(RoundsIn(b.llm, turn), LLM_START);
    var codes := Sort(CodesIn(b.code, turn), CODE_START);
    var events := RoundEvents(rounds, 0, codes, turn.end);
    TotalOneMore(b.emitted + events, StepComplete(turn.end, turn.id, |rounds|), Closes(id));
    TotalAppend(b.emitted, events, Closes(id));
    OneEventPerRound(rounds, 0, codes, turn.end, id);
    SortKeepsTotal(RoundsIn(b.llm, turn), LLM_START, RecordOf(id));
  }

  lemma IntakeAddsRecord(b: Buffers, span: Span, id: nat)
    ensures RoundsEmitted(Intake(b, span).emitted, id) == RoundsEmitted(b.emitted, id)
    ensures Total(Intake(b, span).llm, RecordOf(id)) <=
            Total(b.llm, RecordOf(id)) + (if span.kind.Llm? && span.id == id then 1 else 0)
  {
    TotalOneMore(b.emitted, LlmCall(span.start, span.id), Closes(id));
    TotalOneMore(b.emitted, ReplExecute(span.start, span.id), Closes(id));
    if span.kind.Llm? {
      TotalOneMore(b.llm, LlmRecord(span.id, span.start, span.end, span.kind.agentRound), RecordOf(id));
    }
  }

  lemma {:induction false} RoundsNeverExceedArrivals(b: Buffers, spans: seq<Span>, id: nat)
    ensures
      var after := HandleAll(b, spans);
      RoundsEmitted(after.emitted, id) + Total(after.llm, RecordOf(id))
      <= RoundsEmitted(b.emitted, id) + Total(b.llm, RecordOf(id)) + Arrivals(spans, id)
    decreases |spans|
  {
    if spans != [] {
      if spans[0].kind.Turn? {
        TurnAddsRounds(b, spans[0], id);
        ClosedOrKept(b.llm, spans[0], id);
      } else {
        IntakeAddsRecord(b, spans[0], id);
      }
      RoundsNeverExceedArrivals(Handle(b, spans[0]), spans[1..], id);
    }
  }

  lemma {:induction false} RecordTotalsArePositive(llm: seq<LlmRecord>, id: nat)
    ensures 0 <= Total(llm, RecordOf(id))
    ensures (exists r :: r in llm && r.id == id) <==> 0 < Total(llm, RecordOf(id))
  {
    if llm != [] {
      var front, last := llm[..|llm| - 1], llm[|llm| - 1];
      RecordTotalsArePositive(front, id);
      assert llm == front + [last];
    }
  }

  /** An LLM span that is handled once closes at most one round. */
  lemma ClosesAtMostOnce(spans: seq<Span>, id: nat)
    requires Arrivals(spans, id) <= 1
    ensures RoundsEmitted(HandleAll(EMPTY, spans).emitted, id) <= 1
  {
    RoundsNeverExceedArrivals(EMPTY, spans, id);
    RecordTotalsArePositive(HandleAll(EMPTY, spans).llm, id);
  }

  lemma {:induction false} RoundsInAre(llm: seq<LlmRecord>, turn: Span)
    ensures forall r :: r in RoundsIn(llm, turn) <==> r in llm && r.agentRound && InWindow(r.start, turn)
  {
    if llm != [] { RoundsInAre(llm[1..], turn); }
  }

  lemma {:induction false} LlmFromIs(llm: seq<LlmRecord>, end: int)
    ensures forall r :: r in LlmFrom(llm, end) <==> r in llm && r.start >= end
  {
    if llm != [] { LlmFromIs(llm[1..], end); }
  }

  // ------------------------------------------------------------------------------------------------- exactly one round

  /** No turn among the spans drops a record that starts at `start`: all of them are over by then. */
  ghost predicate TurnsOverBy(spans: seq<Span>, start: int) {
    forall i :: 0 <= i < |spans| && spans[i].kind.Turn? ==> spans[i].end <= start
  }

  /** Every turn among the spans starts after `start`. */
  ghost predicate TurnsAfter(spans: seq<Span>, start: int) {
    forall i :: 0 <= i < |spans| && spans[i].kind.Turn? ==> start < spans[i].start
  }

  lemma {:induction false} RecordIsKept(b: Buffers, spans: seq<Span>, r: LlmRecord)
    requires r in b.llm && TurnsOverBy(spans, r.start)
    ensures r in HandleAll(b, spans).llm
    decreases |spans|
  {
    if spans != [] {
      if spans[0].kind.Turn? { LlmFromIs(b.llm, spans[0].end); }
      assert TurnsOverBy(spans[1..], r.start);
      RecordIsKept(Handle(b, spans[0]), spans[1..], r);
    }
  }

  lemma ArrivedIsRecorded(b: Buffers, before: seq<Span>, x: Span, between: seq<Span>)
    requires x.kind.Llm? && x.kind.hasInput && !x.raises.Early? && TurnsOverBy(between, x.start)
    ensures LlmRecord(x.id, x.start, x.end, x.kind.agentRound) in HandleAll(b, before + [x] + between).llm
  {
    HandleOneMore(b, before, x);
    HandleAppend(b, before + [x], between);
    RecordIsKept(HandleAll(b, before + [x]), between, LlmRecord(x.id, x.start, x.end, x.kind.agentRound));
  }

  lemma TurnClosesRecord(b: Buffers, turn: Span, r: LlmRecord)
    requires r in b.llm && r.agentRound && InWindow(r.start, turn)
    ensures RoundsEmitted(CloseTurn(b, turn).emitted, r.id) >= RoundsEmitted(b.emitted, r.id) + 1
  {
    TurnAddsRounds(b, turn, r.id);
    RoundsInAre(b.llm, turn);
    RecordTotalsArePositive(RoundsIn(b.llm, turn), r.id);
    assert r in RoundsIn(b.llm, turn);
  }

  lemma {:induction false} EmittedStays(b: Buffers, spans: seq<Span>, id: nat)
    ensures RoundsEmitted(b.emitted, id) <= RoundsEmitted(HandleAll(b, spans).emitted, id)
    decreases |spans|
  {
    if spans != [] {
      if spans[0].kind.Turn? {
        TurnAddsRounds(b, spans[0], id);
        ClosedOrKept(b.llm, spans[0], id);
      } else {
        IntakeAddsRecord(b, spans[0], id);
      }
      EmittedStays(Handle(b, spans[0]), spans[1..], id);
    }
  }

  lemma EmittedIsNonNegative(spans: seq<Span>, id: nat)
    ensures 0 <= RoundsEmitted(HandleAll(EMPTY, spans).emitted, id)
  {
    EmittedStays(EMPTY, spans, id);
  }

  lemma {:induction false} ArrivalsAppend(a: seq<Span>, b: seq<Span>, id: nat)
    ensures Arrivals(a + b, id) == Arrivals(a, id) + Arrivals(b, id)
  {
    if a == [] {
      assert a + b == b;
    } else {
      ArrivalsAppend(a[1..], b, id);
      assert (a + b)[1..] == a[1..] + b;
    }
  }

  /** An agent round handled before its turn, with earlier turns over by its start, is emitted exactly once. */
  lemma OnTimeRoundIsEmittedOnce(before: seq<Span>, x: Span, between: seq<Span>, turn: Span, after: seq<Span>)
    requires x.kind == Llm(true, true) && !x.raises.Early? && turn.kind.Turn? && InWindow(x.start, turn)
    requires TurnsOverBy(between, x.start)
    requires Arrivals(before + [x] + between + [turn] + after, x.id) == 1
    ensures RoundsEmitted(HandleAll(EMPTY, before + [x] + between + [turn] + after).emitted, x.id) == 1
  {
    var front := before + [x] + between;
    var b := HandleAll(EMPTY, front);
    ArrivedIsRecorded(EMPTY, before, x, between);
    TurnClosesRecord(b, turn, LlmRecord(x.id, x.start, x.end, true));
    EmittedIsNonNegative(front, x.id);
    HandleOneMore(EMPTY, front, turn);
    HandleAppend(EMPTY, front + [turn], after);
    EmittedStays(CloseTurn(b, turn), after, x.id);
    ClosesAtMostOnce(front + [turn] + after, x.id);
  }

  /** Records of a span all start where the span starts. */
  ghost predicate StartsAt(b: Buffers, id: nat, start: int) {
    forall r :: r in b.llm && r.id == id ==> r.start == start
  }

  lemma {:induction false} LateRoundsStayUnemitted(b: Buffers, spans: seq<Span>, x: Span)
    requires StartsAt(b, x.id, x.start) && TurnsAfter(spans, x.start)
    requires forall i :: 0 <= i < |spans| && spans[i].kind.Llm? && spans[i].id == x.id ==> spans[i].start == x.start
    ensures RoundsEmitted(HandleAll(b, spans).emitted, x.id) == RoundsEmitted(b.emitted, x.id)
    decreases |spans|
  {
    if spans != [] {
      var span := spans[0];
      if span.kind.Turn? {
        TurnAddsRounds(b, span, x.id);
        RoundsInAre(b.llm, span);
        RecordTotalsArePositive(RoundsIn(b.llm, span), x.id);
        LlmFromIs(b.llm, span.end);
      } else {
        IntakeAddsRecord(b, span, x.id);
      }
      assert TurnsAfter(spans[1..], x.start);
      LateRoundsStayUnemitted(Handle(b, span), spans[1..], x);
    }
  }

  lemma {:induction false} NoArrivalNoRecord(b: Buffers, spans: seq<Span>, id: nat)
    requires Arrivals(spans, id) == 0 && Total(b.llm, RecordOf(id)) == 0 && RoundsEmitted(b.emitted, id) == 0
    ensures Total(HandleAll(b, spans).llm, RecordOf(id)) == 0 && RoundsEmitted(HandleAll(b, spans).emitted, id) == 0
  {
    RoundsNeverExceedArrivals(b, spans, id);
    RecordTotalsArePositive(HandleAll(b, spans).llm, id);
    EmittedStays(b, spans, id);
  }

  lemma {:induction false} NoArrivalNoSpan(spans: seq<Span>, id: nat)
    requires Arrivals(spans, id) == 0
    ensures forall i :: 0 <= i < |spans| && spans[i].kind.Llm? ==> spans[i].id != id
  {
    if spans != [] { NoArrivalNoSpan(spans[1..], id); }
  }

  /** A round handled only after its turn, with every later turn starting after it, is never emitted. */
  lemma LateRoundIsNeverEmitted(before: seq<Span>, turn: Span, between: seq<Span>, x: Span, after: seq<Span>)
    requires x.kind.Llm?
    requires TurnsAfter(after, x.start)
    requires Arrivals(before + [turn] + between + [x] + after, x.id) == 1
    ensures RoundsEmitted(HandleAll(EMPTY, before + [turn] + between + [x] + after).emitted, x.id) == 0
  {
    var front := before + [turn] + between;
    ArrivalsAppend(front + [x], after, x.id);
    ArrivalsAppend(front, [x], x.id);
    assert [x][1..] == [];
    NoArrivalNoRecord(EMPTY, front, x.id);
    NoArrivalNoSpan(after, x.id);
    var b := HandleAll(EMPTY, front);
    RecordTotalsArePositive(b.llm, x.id);
    HandleAppend(EMPTY, front, [x] + after);
    assert front + [x] + after == front + ([x] + after);
    assert ([x] + after)[1..] == after;
    IntakeAddsRecord(b, x, x.id);
    LateRoundsStayUnemitted(Intake(b, x), after, x);
  }

  /** Turns are handled in time order and do not overlap. */
  ghost predicate TurnsInOrder(spans: seq<Span>) {
    forall i, j :: 0 <= i < j < |spans| && spans[i].kind.Turn? && spans[j].kind.Turn? ==> spans[i].end <= spans[j].start
  }

  /** With turns in time order, the round of an agent span inside a turn is emitted exactly once if it is handled before
      the turn, and never otherwise. */
  lemma EmittedOnceIffHandledFirst(spans: seq<Span>, p: nat, q: nat)
    requires p < |spans| && q < |spans| && TurnsInOrder(spans)
    requires spans[p].kind == Llm(true, true) && !spans[p].raises.Early?
    requires spans[q].kind.Turn? && InWindow(spans[p].start, spans[q])
    requires Arrivals(spans, spans[p].id) == 1
    ensures RoundsEmitted(HandleAll(EMPTY, spans).emitted, spans[p].id) == if p < q then 1 else 0
  {
    if p < q { HandledBefore(spans, p, q); } else { HandledAfter(spans, p, q); }
  }

  lemma HandledBefore(spans: seq<Span>, p: nat, q: nat)
    requires p < q < |spans| && TurnsInOrder(spans)
    requires spans[p].kind == Llm(true, true) && !spans[p].raises.Early?
    requires spans[q].kind.Turn? && InWindow(spans[p].start, spans[q])
    requires Arrivals(spans, spans[p].id) == 1
    ensures RoundsEmitted(HandleAll(EMPTY, spans).emitted, spans[p].id) == 1
  {
    var before, between, after := spans[..p], spans[p + 1..q], spans[q + 1..];
    assert spans == before + [spans[p]] + between + [spans[q]] + after;
    forall i | 0 <= i < |between| && between[i].kind.Turn? ensures between[i].end <= spans[p].start {
      assert between[i] == spans[p + 1 + i];
    }
    OnTimeRoundIsEmittedOnce(before, spans[p], between, spans[q], after);
  }

  lemma HandledAfter(spans: seq<Span>, p: nat, q: nat)
    requires q < p < |spans| && TurnsInOrder(spans)
    requires spans[p].kind.Llm? && spans[q].kind.Turn? && InWindow(spans[p].start, spans[q])
    requires Arrivals(spans, spans[p].id) == 1
    ensures RoundsEmitted(HandleAll(EMPTY, spans).emitted, spans[p].id) == 0
  {
    var before, between, after := spans[..q], spans[q + 1..p], spans[p + 1..];
    assert spans == before + [spans[q]] + between + [spans[p]] + after;
    forall i | 0 <= i < |after| && after[i].kind.Turn? ensures spans[p].start < after[i].start {
      assert after[i] == spans[p + 1 + i];
    }
    LateRoundIsNeverEmitted(before, spans[q], between, spans[p], after);
  }
}
