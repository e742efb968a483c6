/**
 How the time of code spans is credited to rounds: how many rounds each code span goes to, when that can be more than one,
 and what it means for the total.
 */
module CodeCredit {
  import opened Options
  import opened StableSort
  import opened EventExporter
  import opened Attribution

  // ------------------------------------------------------------------------------------------------ sums of two values

  lemma {:induction false} TotalIsMonotone<T>(s: seq<T>, f: T -> int, g: T -> int)
    requires forall x :: x in s ==> f(x) <= g(x)
    ensures Total(s, f) <= Total(s, g)
  {
    if s != [] { TotalIsMonotone(s[..|s| - 1], f, g); }
  }

  lemma {:induction false} TotalOfSum<T>(s: seq<T>, f: T -> int, g: T -> int, h: T -> int)
    requires forall x :: h(x) == f(x) + g(x)
    ensures Total(s, h) == Total(s, f) + Total(s, g)
  {
    if s != [] { TotalOfSum(s[..|s| - 1], f, g, h); }
  }

  lemma {:induction false} TotalOfZero<T>(s: seq<T>, f: T -> int)
    requires forall x :: f(x) == 0
    ensures Total(s, f) == 0
  {
    if s != [] { TotalOfZero(s[..|s| - 1], f); }
  }

  // -------------------------------------------------------------------------------------------------- who takes an instant

  /** Where the window of round `i` ends. */
  ghost function Next(rounds: seq<LlmRecord>, i: nat, end: int): int
    requires i < |rounds|
  {
    if i + 1 < |rounds| then rounds[i + 1].start else end
  }

  /** Code that starts at `t` is credited to round `i`. */
  ghost predicate Takes(rounds: seq<LlmRecord>, i: nat, t: int, end: int)
    requires i < |rounds|
  {
    rounds[i].end <= t < Next(rounds, i, end)
  }

  /** How many rounds are credited with code that starts at `t`. */
  ghost function Takers(rounds: seq<LlmRecord>, t: int, end: int): nat {
    if rounds == [] then 0 else (if Takes(rounds, 0, t, end) then 1 else 0) + Takers(rounds[1..], t, end)
  }

  /** A code span's time, once for each round it is credited to. */
  ghost function CreditedTime(rounds: seq<LlmRecord>, end: int): CodeRecord -> int {
    (c: CodeRecord) => Takers(rounds, c.start, end) * Duration(c.start, c.end)
  }

  ghost function WindowTime(from: int, to: int): CodeRecord -> int {
    (c: CodeRecord) => if from <= c.start < to then Duration(c.start, c.end) else 0
  }

  lemma {:induction false} CodeTimeIs(codes: seq<CodeRecord>, from: int, to: int)
    ensures CodeTime(codes, from, to) == Total(codes, WindowTime(from, to))
  {
    if codes != [] {
      CodeTimeIs(codes[1..], from, to);
      TotalCons(codes[0], codes[1..], WindowTime(from, to));
      assert codes == [codes[0]] + codes[1..];
    }
  }

  ghost const CODE_TIME := (c: CodeRecord) => Duration(c.start, c.end)
  ghost const REPL_TIME := (e: Event) => if e.RoundComplete? then e.replTime else 0

  /** The REPL time a turn reports is the time of its code spans, each as often as there are rounds that take it. */
  lemma {:induction false} ReportedIsCredited(rounds: seq<LlmRecord>, depth: nat, codes: seq<CodeRecord>, end: int)
    ensures Total(RoundEvents(rounds, depth, codes, end), REPL_TIME) == Total(codes, CreditedTime(rounds, end))
    decreases |rounds|
  {
    if rounds == [] {
      TotalOfZero(codes, CreditedTime(rounds, end));
    } else {
      var r, rest := rounds[0], rounds[1..];
      var events := RoundEvents(rounds, depth, codes, end);
      ReportedIsCredited(rest, depth + 1, codes, end);
      assert events == [events[0]] + RoundEvents(rest, depth + 1, codes, end);
      TotalCons(events[0], RoundEvents(rest, depth + 1, codes, end), REPL_TIME);
      CodeTimeIs(codes, r.end, Next(rounds, 0, end));
      var head := WindowTime(r.end, Next(rounds, 0, end));
      forall c ensures CreditedTime(rounds, end)(c) == head(c) + CreditedTime(rest, end)(c) {
        OneRoundMore(rounds, c, end);
      }
      TotalOfSum(codes, head, CreditedTime(rest, end), CreditedTime(rounds, end));
    }
  }

  lemma OneRoundMore(rounds: seq<LlmRecord>, c: CodeRecord, end: int)
    requires rounds != []
    ensures CreditedTime(rounds, end)(c) ==
            WindowTime(rounds[0].end, Next(rounds, 0, end))(c) + CreditedTime(rounds[1..], end)(c)
  {
    var one := if Takes(rounds, 0, c.start, end) then 1 else 0;
    var more, time := Takers(rounds[1..], c.start, end), Duration(c.start, c.end);
    assert (one + more) * time == one * time + more * time;
  }

  lemma {:induction false} SomeoneTakes(rounds: seq<LlmRecord>, t: int, end: int)
    ensures Takers(rounds, t, end) >= 1 <==> exists i: nat :: i < |rounds| && Takes(rounds, i, t, end)
  {
    if rounds != [] {
      var rest := rounds[1..];
      SomeoneTakes(rest, t, end);
      assert forall i: nat :: i < |rest| ==> Takes(rest, i, t, end) == Takes(rounds, i + 1, t, end);
      if i: nat :| i < |rounds| && Takes(rounds, i, t, end) {
        if i > 0 { assert Takes(rest, i - 1, t, end); }
      }
      if Takers(rest, t, end) >= 1 {
        var i: nat :| i < |rest| && Takes(rest, i, t, end);
        assert Takes(rounds, i + 1, t, end);
      }
    }
  }

  ghost predicate TwoTake(rounds: seq<LlmRecord>, i: nat, j: nat, t: int, end: int) {
    i < j < |rounds| && Takes(rounds, i, t, end) && Takes(rounds, j, t, end)
  }

  lemma {:induction false} TwoTakers(rounds: seq<LlmRecord>, t: int, end: int)
    ensures Takers(rounds, t, end) >= 2 <==> exists i: nat, j: nat :: TwoTake(rounds, i, j, t, end)
  {
    if rounds != [] {
      var rest := rounds[1..];
      TwoTakers(rest, t, end);
      SomeoneTakes(rest, t, end);
      assert forall i: nat :: i < |rest| ==> Takes(rest, i, t, end) == Takes(rounds, i + 1, t, end);
      if i: nat, j: nat :| TwoTake(rounds, i, j, t, end) {
        assert Takes(rest, j - 1, t, end);
        if i > 0 { assert TwoTake(rest, i - 1, j - 1, t, end); }
      }
      if Takers(rest, t, end) >= 2 {
        var i: nat, j: nat :| TwoTake(rest, i, j, t, end);
        assert TwoTake(rounds, i + 1, j + 1, t, end);
      } else if Takers(rounds, t, end) >= 2 {
        var j: nat :| j < |rest| && Takes(rest, j, t, end);
        assert TwoTake(rounds, 0, j + 1, t, end);
      }
    }
  }

  /** Two rounds have both "ended" before the one after the first of them starts, and that start is inside the turn. */
  ghost predicate Overlap(rounds: seq<LlmRecord>, from: int) {
    exists i: nat, j: nat :: OverlapAt(rounds, from, i, j)
  }

  ghost predicate OverlapAt(rounds: seq<LlmRecord>, from: int, i: nat, j: nat) {
    && i < j < |rounds|
    && rounds[i].end < rounds[i + 1].start && rounds[j].end < rounds[i + 1].start && from < rounds[i + 1].start
  }

  /** Some instant of a turn is credited twice if and only if two of its rounds overlap in that sense. */
  lemma InstantCreditedTwiceIff(rounds: seq<LlmRecord>, from: int, end: int)
    requires Ascending(rounds, LLM_START) && forall i :: 0 <= i < |rounds| ==> rounds[i].start < end
    ensures (exists t :: from <= t < end && Takers(rounds, t, end) >= 2) <==> Overlap(rounds, from)
  {
    if t :| from <= t < end && Takers(rounds, t, end) >= 2 {
      TwoTakers(rounds, t, end);
      var i: nat, j: nat :| TwoTake(rounds, i, j, t, end);
      assert OverlapAt(rounds, from, i, j);
    }
    if Overlap(rounds, from) {
      var i: nat, j: nat :| OverlapAt(rounds, from, i, j);
      OverlapIsTaken(rounds, from, end, i, j);
    }
  }

  lemma OverlapIsTaken(rounds: seq<LlmRecord>, from: int, end: int, i: nat, j: nat)
    requires Ascending(rounds, LLM_START) && (forall i :: 0 <= i < |rounds| ==> rounds[i].start < end)
    requires OverlapAt(rounds, from, i, j)
    ensures
      var t := rounds[i + 1].start - 1;
      from <= t < end && Takers(rounds, t, end) >= 2
  {
    var t := rounds[i + 1].start - 1;
    if j + 1 < |rounds| { assert LLM_START(rounds[i + 1]) <= LLM_START(rounds[j + 1]); }
    assert TwoTake(rounds, i, j, t, end);
    TwoTakers(rounds, t, end);
  }

  // ------------------------------------------------------------------------------------------------- credits of a span

  ghost function RoundsOf(b: Buffers, turn: Span): seq<LlmRecord> {
    Sort(RoundsIn(b.llm, turn), LLM_START)
  }

  ghost function CodeOf(id: nat): CodeRecord -> int {
    (c: CodeRecord) => if c.id == id then 1 else 0
  }

  ghost function CreditOf(rounds: seq<LlmRecord>, end: int, id: nat): CodeRecord -> int {
    (c: CodeRecord) => if c.id == id then Takers(rounds, c.start, end) else 0
  }

  /** How many rounds the handled turns credit with the code span. */
  ghost function Credits(b: Buffers, spans: seq<Span>, id: nat): int
    decreases |spans|
  {
    if spans == [] then 0
    else
      (if spans[0].kind.Turn?
       then Total(Sort(CodesIn(b.code, spans[0]), CODE_START), CreditOf(RoundsOf(b, spans[0]), spans[0].end, id))
       else 0)
      + Credits(Handle(b, spans[0]), spans[1..], id)
  }

  /** No handled turn has rounds that overlap. */
  ghost predicate Apart(b: Buffers, spans: seq<Span>)
    decreases |spans|
  {
    spans != [] ==>
      && (spans[0].kind.Turn? ==> !Overlap(RoundsOf(b, spans[0]), spans[0].start))
      && Apart(Handle(b, spans[0]), spans[1..])
  }

  ghost function CodeArrivals(spans: seq<Span>, id: nat): nat {
    if spans == [] then 0
    else (if spans[0].kind.Code? && spans[0].id == id then 1 else 0) + CodeArrivals(spans[1..], id)
  }

  lemma RoundsAreSorted(b: Buffers, turn: Span)
    ensures Ascending(RoundsOf(b, turn), LLM_START)
    ensures forall i :: 0 <= i < |RoundsOf(b, turn)| ==>
              && RoundsOf(b, turn)[i] in b.llm
              && RoundsOf(b, turn)[i].agentRound
              && RoundsOf(b, turn)[i].start < turn.end
  {
    SortSorts(RoundsIn(b.llm, turn), LLM_START);
    RoundsInAre(b.llm, turn);
    SortedElements(RoundsIn(b.llm, turn), LLM_START);
  }

  lemma SortedElements<T>(s: seq<T>, key: T -> int)
    ensures forall x :: x in Sort(s, key) <==> x in s
  {
    SortSorts(s, key);
    assert forall x :: x in Sort(s, key) <==> x in multiset(Sort(s, key));
    assert forall x :: x in s <==> x in multiset(s);
  }

  lemma {:induction false} CodesInAre(code: seq<CodeRecord>, turn: Span)
    ensures forall c :: c in CodesIn(code, turn) <==> c in code && InWindow(c.start, turn)
  {
    if code != [] { CodesInAre(code[1..], turn); }
  }

  /** A record inside the turn is not kept, whatever is counted. */
  lemma {:induction false} CodeClosedOrKept(code: seq<CodeRecord>, turn: Span, value: CodeRecord -> int)
    requires forall c :: value(c) >= 0
    ensures Total(CodesIn(code, turn), value) + Total(CodeFrom(code, turn.end), value) <= Total(code, value)
    ensures 0 <= Total(code, value)
  {
    if code != [] {
      CodeClosedOrKept(code[1..], turn, value);
      TotalCons(code[0], code[1..], value);
      TotalCons(code[0], CodesIn(code[1..], turn), value);
      TotalCons(code[0], CodeFrom(code[1..], turn.end), value);
      assert code == [code[0]] + code[1..];
      assert [] + CodesIn(code[1..], turn) == CodesIn(code[1..], turn);
      assert [] + CodeFrom(code[1..], turn.end) == CodeFrom(code[1..], turn.end);
    }
  }

  lemma TakenOnce(b: Buffers, turn: Span, t: int)
    requires !Overlap(RoundsOf(b, turn), turn.start) && InWindow(t, turn)
    ensures Takers(RoundsOf(b, turn), t, turn.end) <= 1
  {
    RoundsAreSorted(b, turn);
    InstantCreditedTwiceIff(RoundsOf(b, turn), turn.start, turn.end);
  }

  /** Where rounds do not overlap, a weighted code span counts at most once in the turn. */
  lemma TurnCountsOnce(b: Buffers, turn: Span, value: CodeRecord -> int, credit: CodeRecord -> int)
    requires !Overlap(RoundsOf(b, turn), turn.start)
    requires forall c :: value(c) >= 0
    requires forall c :: credit(c) <= Takers(RoundsOf(b, turn), c.start, turn.end) * value(c)
    ensures Total(Sort(CodesIn(b.code, turn), CODE_START), credit) + Total(CodeFrom(b.code, turn.end), value)
            <= Total(b.code, value)
  {
    var inside := CodesIn(b.code, turn);
    CodesInAre(b.code, turn);
    forall c | c in inside ensures credit(c) <= value(c) {
      TakenOnce(b, turn, c.start);
      assert value(c) >= 0;
      AtMostOnce(Takers(RoundsOf(b, turn), c.start, turn.end), value(c));
    }
    TotalIsMonotone(inside, credit, value);
    SortKeepsTotal(inside, CODE_START, credit);
    CodeClosedOrKept(b.code, turn, value);
  }

  lemma AtMostOnce(n: nat, value: int)
    requires n <= 1 && value >= 0
    ensures n * value <= value
  {
  }

  /** One code span: the rounds credited so far and the records still buffered never exceed its arrivals. */
  lemma {:induction false} CreditsNeverExceedArrivals(b: Buffers, spans: seq<Span>, id: nat)
    requires Apart(b, spans)
    ensures Credits(b, spans, id) + Total(HandleAll(b, spans).code, CodeOf(id))
            <= Total(b.code, CodeOf(id)) + CodeArrivals(spans, id)
    decreases |spans|
  {
    if spans != [] {
      var span := spans[0];
      if span.kind.Turn? {
        TurnCountsOnce(b, span, CodeOf(id), CreditOf(RoundsOf(b, span), span.end, id));
      } else {
        TotalOneMore(b.code, CodeRecord(span.id, span.start, span.end), CodeOf(id));
      }
      CreditsNeverExceedArrivals(Handle(b, span), spans[1..], id);
    }
  }

  ghost function CodeSpanTime(spans: seq<Span>): nat {
    if spans == [] then 0
    else (if spans[0].kind.Code? then Duration(spans[0].start, spans[0].end) else 0) + CodeSpanTime(spans[1..])
  }

  /** All code time: what has been credited and what is still buffered never grow by more than what arrives. */
  lemma {:induction false} CreditIsConserved(b: Buffers, spans: seq<Span>)
    requires Apart(b, spans)
    ensures
      var after := HandleAll(b, spans);
      Total(after.emitted, REPL_TIME) + Total(after.code, CODE_TIME)
      <= Total(b.emitted, REPL_TIME) + Total(b.code, CODE_TIME) + CodeSpanTime(spans)
    decreases |spans|
  {
    if spans != [] {
      var span := spans[0];
      if span.kind.Turn? {
        TurnCreditsCode(b, span);
      } else {
        TotalOneMore(b.emitted, LlmCall(span.start, span.id), REPL_TIME);
        TotalOneMore(b.emitted, ReplExecute(span.start, span.id), REPL_TIME);
        TotalOneMore(b.code, CodeRecord(span.id, span.start, span.end), CODE_TIME);
      }
      CreditIsConserved(Handle(b, span), spans[1..]);
    }
  }

  lemma TurnCreditsCode(b: Buffers, turn: Span)
    requires !Overlap(RoundsOf(b, turn), turn.start)
    ensures
      var after := CloseTurn(b, turn);
      Total(after.emitted, REPL_TIME) + Total(after.code, CODE_TIME)
      <= Total(b.emitted, REPL_TIME) + Total(b.code, CODE_TIME)
  {
    var rounds := RoundsOf(b, turn);
    TurnReports(b, turn);
    TurnCountsOnce(b, turn, CODE_TIME, CreditedTime(rounds, turn.end));
  }

  /** What a turn adds to the reported REPL time. */
  lemma TurnReports(b: Buffers, turn: Span)
    ensures Total(CloseTurn(b, turn).emitted, REPL_TIME) ==
            Total(b.emitted, REPL_TIME)
            + Total(Sort(CodesIn(b.code, turn), CODE_START), CreditedTime(RoundsOf(b, turn), turn.end))
  {
    var rounds, codes := RoundsOf(b, turn), Sort(CodesIn(b.code, turn), CODE_START);
    var events := RoundEvents(rounds, 0, codes, turn.end);
    ReportedIsCredited(rounds, 0, codes, turn.end);
    TotalOneMore(b.emitted + events, StepComplete(turn.end, turn.id, |rounds|), REPL_TIME);
    TotalAppend(b.emitted, events, REPL_TIME);
  }

  /** Round by round, what a turn reports: the round's span and start, its position, the time of its LLM call, and the time
      of the code that started from its end up to the next round. */
  lemma {:induction false} RoundEventsAre(
    rounds: seq<LlmRecord>, depth: nat, codes: seq<CodeRecord>, end: int, i: nat)
    requires i < |rounds|
    ensures
      var events := RoundEvents(rounds, depth, codes, end);
      && |events| == |rounds|
      && events[i] == RoundComplete(
                        rounds[i].start, rounds[i].id, depth + i, Duration(rounds[i].start, rounds[i].end),
                        Total(codes, WindowTime(rounds[i].end, Next(rounds, i, end))))
    decreases |rounds|
  {
    CodeTimeIs(codes, rounds[0].end, Next(rounds, 0, end));
    var rest := rounds[1..];
    if i > 0 {
      RoundEventsAre(rest, depth + 1, codes, end, i - 1);
    } else if rest != [] {
      RoundEventsAre(rest, depth + 1, codes, end, 0);
    }
  }

  /** A turn emits its rounds in order and then one step with their number. */
  lemma TurnEmits(b: Buffers, turn: Span)
    ensures
      var (before, after) := (b.emitted, CloseTurn(b, turn).emitted);
      var rounds := RoundsOf(b, turn);
      && before <= after && |after| == |before| + |rounds| + 1
      && after[|after| - 1] == StepComplete(turn.end, turn.id, |rounds|)
      && forall i :: 0 <= i < |rounds| ==>
           after[|before| + i] == RoundComplete(
             rounds[i].start, rounds[i].id, i, Duration(rounds[i].start, rounds[i].end),
             Total(Sort(CodesIn(b.code, turn), CODE_START), WindowTime(rounds[i].end, Next(rounds, i, turn.end))))
  {
    var rounds, codes := RoundsOf(b, turn), Sort(CodesIn(b.code, turn), CODE_START);
    var events := RoundEvents(rounds, 0, codes, turn.end);
    assert |events| == |rounds| by { if rounds != [] { RoundEventsAre(rounds, 0, codes, turn.end, 0); } }
    forall i | 0 <= i < |rounds|
      ensures events[i] == RoundComplete(
        rounds[i].start, rounds[i].id, i, Duration(rounds[i].start, rounds[i].end),
        Total(codes, WindowTime(rounds[i].end, Next(rounds, i, turn.end)))) {
      RoundEventsAre(rounds, 0, codes, turn.end, i);
    }
    var after := CloseTurn(b, turn).emitted;
    assert after == b.emitted + events + [StepComplete(turn.end, turn.id, |rounds|)];
    assert forall i :: 0 <= i < |rounds| ==> after[|b.emitted| + i] == events[i];
  }

  // ------------------------------------------------------------------------------------------------ every span reported

  /** A way of counting events other than rounds, in which the number of rounds of a step makes no difference. */
  ghost predicate CountsReports(value: Event -> int) {
    && (forall e: Event :: e.RoundComplete? ==> value(e) == 0)
    && forall at, id, n, m :: value(StepComplete(at, id, n)) == value(StepComplete(at, id, m))
  }

  /** What a span is reported as: code as a REPL run and an LLM span with input as a call, each at its start, unless the
      handler raises early, and a turn as a step at its end. */
  ghost function ReportOf(span: Span, value: Event -> int): int {
    match span.kind
    case Turn => value(StepComplete(span.end, span.id, 0))
    case Code => if span.raises.Early? then 0 else value(ReplExecute(span.start, span.id))
    case Llm(hasInput, _) => if !hasInput || span.raises.Early? then 0 else value(LlmCall(span.start, span.id))
    case Unrelated => 0
  }

  ghost function Reports(spans: seq<Span>, value: Event -> int): int {
    if spans == [] then 0 else ReportOf(spans[0], value) + Reports(spans[1..], value)
  }

  lemma {:induction false} OnlyRounds(rounds: seq<LlmRecord>, depth: nat, codes: seq<CodeRecord>, end: int, value: Event -> int)
    requires forall e: Event :: e.RoundComplete? ==> value(e) == 0
    ensures Total(RoundEvents(rounds, depth, codes, end), value) == 0
    decreases |rounds|
  {
    if rounds != [] {
      var events := RoundEvents(rounds, depth, codes, end);
      OnlyRounds(rounds[1..], depth + 1, codes, end, value);
      assert events == [events[0]] + RoundEvents(rounds[1..], depth + 1, codes, end);
      TotalCons(events[0], RoundEvents(rounds[1..], depth + 1, codes, end), value);
    }
  }

  lemma SpanIsReported(b: Buffers, span: Span, value: Event -> int)
    requires CountsReports(value)
    ensures Total(Handle(b, span).emitted, value) == Total(b.emitted, value) + ReportOf(span, value)
  {
    TotalOneMore(b.emitted, LlmCall(span.start, span.id), value);
    TotalOneMore(b.emitted, ReplExecute(span.start, span.id), value);
    if span.kind.Turn? {
      var rounds, codes := RoundsOf(b, span), Sort(CodesIn(b.code, span), CODE_START);
      var events := RoundEvents(rounds, 0, codes, span.end);
      OnlyRounds(rounds, 0, codes, span.end, value);
      TotalAppend(b.emitted, events, value);
      TotalOneMore(b.emitted + events, StepComplete(span.end, span.id, |rounds|), value);
    }
  }

  /** Rounds apart, the events are the reports of the spans, each once, and nothing else. */
  lemma {:induction false} EverySpanIsReported(b: Buffers, spans: seq<Span>, value: Event -> int)
    requires CountsReports(value)
    ensures Total(HandleAll(b, spans).emitted, value) == Total(b.emitted, value) + Reports(spans, value)
    decreases |spans|
  {
    hide Handle, Total, ReportOf, CountsReports;
    if spans != [] {
      SpanIsReported(b, spans[0], value);
      EverySpanIsReported(Handle(b, spans[0]), spans[1..], value);
    }
  }

  lemma {:induction false} CodeFromIs(code: seq<CodeRecord>, end: int)
    ensures forall c :: c in CodeFrom(code, end) <==> c in code && c.start >= end
  {
    if code != [] { CodeFromIs(code[1..], end); }
  }

  lemma {:induction false} CodeIsKept(b: Buffers, spans: seq<Span>, c: CodeRecord)
    requires c in b.code && TurnsOverBy(spans, c.start)
    ensures c in HandleAll(b, spans).code
    decreases |spans|
  {
    if spans != [] {
      if spans[0].kind.Turn? { CodeFromIs(b.code, spans[0].end); }
      assert TurnsOverBy(spans[1..], c.start);
      CodeIsKept(Handle(b, spans[0]), spans[1..], c);
    }
  }

  /** A code span handled before its turn, with earlier turns over by its start, is credited to every round that takes it. */
  lemma OnTimeCodeIsCredited(before: seq<Span>, x: Span, between: seq<Span>, turn: Span)
    requires x.kind.Code? && !x.raises.Early? && turn.kind.Turn? && InWindow(x.start, turn)
    requires TurnsOverBy(between, x.start)
    ensures
      var b := HandleAll(EMPTY, before + [x] + between);
      Total(Sort(CodesIn(b.code, turn), CODE_START), CreditOf(RoundsOf(b, turn), turn.end, x.id))
      >= Takers(RoundsOf(b, turn), x.start, turn.end)
  {
    var b := HandleAll(EMPTY, before + [x] + between);
    var c := CodeRecord(x.id, x.start, x.end);
    HandleOneMore(EMPTY, before, x);
    HandleAppend(EMPTY, before + [x], between);
    CodeIsKept(HandleAll(EMPTY, before + [x]), between, c);
    CodesInAre(b.code, turn);
    var credit := CreditOf(RoundsOf(b, turn), turn.end, x.id);
    SortKeepsTotal(CodesIn(b.code, turn), CODE_START, credit);
    AtLeastOne(CodesIn(b.code, turn), c, credit);
  }

  lemma {:induction false} AtLeastOne<T>(s: seq<T>, x: T, value: T -> int)
    requires x in s && forall y :: value(y) >= 0
    ensures Total(s, value) >= value(x)
  {
    var front, last := s[..|s| - 1], s[|s| - 1];
    if x in front { AtLeastOne(front, x, value); } else { AllAtLeastZero(front, value); }
  }

  lemma {:induction false} AllAtLeastZero<T>(s: seq<T>, value: T -> int)
    requires forall y :: value(y) >= 0
    ensures Total(s, value) >= 0
  {
    if s != [] { AllAtLeastZero(s[..|s| - 1], value); }
  }

  // --------------------------------------------------------------------------------------------- when it can go wrong

  /** LLM spans of agent rounds that end no earlier than they start. */
  ghost predicate ForwardSpans(spans: seq<Span>) {
    forall i :: 0 <= i < |spans| && spans[i].kind.Llm? && spans[i].kind.agentRound ==> spans[i].start <= spans[i].end
  }

  ghost predicate ForwardRecords(llm: seq<LlmRecord>) {
    forall r :: r in llm && r.agentRound ==> r.start <= r.end
  }

  /** Clocks that run forward are enough. */
  lemma {:induction false} ForwardIsApart(b: Buffers, spans: seq<Span>)
    requires ForwardSpans(spans) && ForwardRecords(b.llm)
    ensures Apart(b, spans) && ForwardRecords(HandleAll(b, spans).llm)
    decreases |spans|
  {
    if spans != [] {
      var span := spans[0];
      if span.kind.Turn? {
        RoundsAreSorted(b, span);
        ForwardRoundsAreApart(RoundsOf(b, span), span.start);
        LlmFromIs(b.llm, span.end);
      }
      ForwardIsApart(Handle(b, span), spans[1..]);
    }
  }

  lemma ForwardRoundsAreApart(rounds: seq<LlmRecord>, from: int)
    requires Ascending(rounds, LLM_START) && forall i :: 0 <= i < |rounds| ==> rounds[i].start <= rounds[i].end
    ensures !Overlap(rounds, from)
  {
    forall i: nat, j: nat ensures !OverlapAt(rounds, from, i, j) {
      if i + 1 < j < |rounds| { assert LLM_START(rounds[i + 1]) <= LLM_START(rounds[j]); }
    }
  }

  function CodeAt(id: nat, t: int): Span {
    Span(id, None, Code, t, t, Never)
  }

  /** A new code span handled just before the turn can be credited to two rounds if and only if rounds of the turn
      overlap. */
  lemma CodeCreditedTwiceIff(b: Buffers, turn: Span, id: nat)
    requires turn.kind.Turn? && forall c :: c in b.code ==> c.id != id
    ensures (exists t :: Credits(b, [CodeAt(id, t), turn], id) >= 2) <==> Overlap(RoundsOf(b, turn), turn.start)
  {
    hide Credits, Overlap, Takers;
    if t :| Credits(b, [CodeAt(id, t), turn], id) >= 2 {
      if !Overlap(RoundsOf(b, turn), turn.start) { CodeBeforeTurnOnce(b, turn, id, t); }
    }
    if Overlap(RoundsOf(b, turn), turn.start) {
      var t := OverlapHasInstant(b, turn);
      CodeBeforeTurn(b, turn, id, t);
    }
  }

  lemma OverlapHasInstant(b: Buffers, turn: Span) returns (t: int)
    requires Overlap(RoundsOf(b, turn), turn.start)
    ensures InWindow(t, turn) && Takers(RoundsOf(b, turn), t, turn.end) >= 2
  {
    var rounds := RoundsOf(b, turn);
    var i: nat, j: nat :| OverlapAt(rounds, turn.start, i, j);
    RoundsAreSorted(b, turn);
    OverlapIsTaken(rounds, turn.start, turn.end, i, j);
    t := rounds[i + 1].start - 1;
  }

  lemma {:induction false} NoCodeOf(code: seq<CodeRecord>, value: CodeRecord -> int)
    requires forall c :: c in code ==> value(c) == 0
    ensures Total(code, value) == 0
  {
    if code != [] { NoCodeOf(code[..|code| - 1], value); }
  }

  lemma CodesInOneMore(code: seq<CodeRecord>, c: CodeRecord, turn: Span)
    ensures CodesIn(code + [c], turn) == CodesIn(code, turn) + if InWindow(c.start, turn) then [c] else []
  {
    if code == [] {
      assert code + [c] == [c] && [c][1..] == [];
    } else {
      assert (code + [c])[1..] == code[1..] + [c];
      CodesInOneMore(code[1..], c, turn);
    }
  }

  /** The credits of a code span handled just before its turn. */
  lemma CodeBeforeTurn(b: Buffers, turn: Span, id: nat, t: int)
    requires turn.kind.Turn? && forall c :: c in b.code ==> c.id != id
    ensures Credits(b, [CodeAt(id, t), turn], id) ==
            if InWindow(t, turn) then Takers(RoundsOf(b, turn), t, turn.end) else 0
  {
    var spans := [CodeAt(id, t), turn];
    var c := CodeRecord(id, t, t);
    var with := Handle(b, spans[0]);
    assert with.code == b.code + [c] && with.llm == b.llm;
    assert spans[1..] == [turn] && [turn][1..] == [];
    var credit := CreditOf(RoundsOf(b, turn), turn.end, id);
    assert Credits(Handle(with, turn), [], id) == 0;
    assert Credits(with, [turn], id) == Total(Sort(CodesIn(with.code, turn), CODE_START), credit);
    SortKeepsTotal(CodesIn(with.code, turn), CODE_START, credit);
    CodesInOneMore(b.code, c, turn);
    CodesInAre(b.code, turn);
    NoCodeOf(CodesIn(b.code, turn), credit);
    TotalOneMore(CodesIn(b.code, turn), c, credit);
    assert CodesIn(b.code, turn) + [] == CodesIn(b.code, turn);
  }

  lemma CodeBeforeTurnOnce(b: Buffers, turn: Span, id: nat, t: int)
    requires turn.kind.Turn? && forall c :: c in b.code ==> c.id != id
    requires !Overlap(RoundsOf(b, turn), turn.start)
    ensures Credits(b, [CodeAt(id, t), turn], id) <= 1
  {
    CodeBeforeTurn(b, turn, id, t);
    RoundsAreSorted(b, turn);
    InstantCreditedTwiceIff(RoundsOf(b, turn), turn.start, turn.end);
  }

  lemma SortOfTwo(a: LlmRecord, b: LlmRecord)
    requires a.start <= b.start
    ensures Sort([a, b], LLM_START) == [a, b]
  {
    assert [a, b][..1] == [a] && [a][..0] == [];
    assert Sort([], LLM_START) == [];
    assert Sort([a], LLM_START) == [a];
  }

  /** For instance when the second of two agent spans "ends" before it starts: a code span of 3 ns is credited to both. */
  lemma BackwardSpanCreditsTwice()
    ensures
      var spans := [
        Span(0, None, Llm(true, true), 0, 0, Never), Span(1, None, Llm(true, true), 10, 2, Never),
        Span(2, None, Code, 5, 8, Never), Span(3, None, Turn, 0, 20, Never)];
      && Credits(EMPTY, spans, 2) == 2
      && Total(HandleAll(EMPTY, spans).emitted, REPL_TIME) == 6 && CodeSpanTime(spans) == 3
  {
    var first, second := Span(0, None, Llm(true, true), 0, 0, Never), Span(1, None, Llm(true, true), 10, 2, Never);
    var code, turn := Span(2, None, Code, 5, 8, Never), Span(3, None, Turn, 0, 20, Never);
    TwoRoundsShare(first, second, code, turn);
  }

  lemma TwoRoundsShare(first: Span, second: Span, code: Span, turn: Span)
    requires first.kind == second.kind == Llm(true, true) && code.kind.Code? && turn.kind.Turn?
    requires InWindow(first.start, turn) && InWindow(second.start, turn) && InWindow(code.start, turn)
    requires first.end <= code.start < second.start && first.start <= second.start && second.end <= code.start
    requires first.raises.Never? && second.raises.Never? && code.raises.Never?
    ensures
      var spans := [first, second, code, turn];
      && Credits(EMPTY, spans, code.id) == 2
      && Total(HandleAll(EMPTY, spans).emitted, REPL_TIME) == 2 * Duration(code.start, code.end)
      && CodeSpanTime(spans) == Duration(code.start, code.end)
  {
    var r := LlmRecord(first.id, first.start, first.end, true);
    var t := LlmRecord(second.id, second.start, second.end, true);
    var c := CodeRecord(code.id, code.start, code.end);
    var log := [LlmCall(first.start, first.id), LlmCall(second.start, second.id), ReplExecute(code.start, code.id)];
    var b := Buffers([r, t], [c], log);
    FourSpans(first, second, code, turn, b);
    TurnOfTwo(b, r, t, c, turn);
    TakersOfTwo(r, t, c.start, turn.end);
    NothingReported(log);
    var credit, time := CreditOf([r, t], turn.end, code.id), CreditedTime([r, t], turn.end);
    TotalOfOne(c, credit);
    TotalOfOne(c, time);
    TurnReports(b, turn);
  }

  lemma TotalOfOne<T>(x: T, value: T -> int)
    ensures Total([x], value) == value(x)
  {
    TotalOneMore([], x, value);
    assert [] + [x] == [x];
  }

  lemma {:induction false} NothingReported(events: seq<Event>)
    requires forall i :: 0 <= i < |events| ==> !events[i].RoundComplete?
    ensures Total(events, REPL_TIME) == 0
  {
    if events != [] { NothingReported(events[..|events| - 1]); }
  }

  lemma FourSpans(first: Span, second: Span, code: Span, turn: Span, b: Buffers)
    requires first.kind == second.kind == Llm(true, true) && code.kind.Code? && turn.kind.Turn?
    requires b == Handle(Handle(Handle(EMPTY, first), second), code)
    ensures
      var spans := [first, second, code, turn];
      && HandleAll(EMPTY, spans) == CloseTurn(b, turn)
      && Credits(EMPTY, spans, code.id) ==
           Total(Sort(CodesIn(b.code, turn), CODE_START), CreditOf(RoundsOf(b, turn), turn.end, code.id))
      && CodeSpanTime(spans) == Duration(code.start, code.end)
  {
    var spans := [first, second, code, turn];
    assert spans[1..] == [second, code, turn] && [second, code, turn][1..] == [code, turn];
    assert [code, turn][1..] == [turn] && [turn][1..] == [];
    var b1 := Handle(EMPTY, first);
    var b2 := Handle(b1, second);
    assert HandleAll(b, [turn]) == HandleAll(CloseTurn(b, turn), []) == CloseTurn(b, turn);
    assert HandleAll(b2, [code, turn]) == HandleAll(b, [turn]);
    assert HandleAll(b1, [second, code, turn]) == HandleAll(b2, [code, turn]);
    var id := code.id;
    assert Credits(CloseTurn(b, turn), [], id) == 0;
    assert Credits(b2, [code, turn], id) == Credits(b, [turn], id);
    assert Credits(b1, [second, code, turn], id) == Credits(b2, [code, turn], id);
    assert Credits(EMPTY, spans, id) == Credits(b1, [second, code, turn], id);
    assert CodeSpanTime([turn]) == 0;
    assert CodeSpanTime([code, turn]) == Duration(code.start, code.end);
    assert CodeSpanTime([second, code, turn]) == CodeSpanTime([code, turn]);
  }

  lemma TurnOfTwo(b: Buffers, r: LlmRecord, t: LlmRecord, c: CodeRecord, turn: Span)
    requires b.llm == [r, t] && b.code == [c] && r.agentRound && t.agentRound && r.start <= t.start
    requires InWindow(r.start, turn) && InWindow(t.start, turn) && InWindow(c.start, turn)
    ensures RoundsOf(b, turn) == [r, t] && Sort(CodesIn(b.code, turn), CODE_START) == [c]
  {
    assert [r, t][1..] == [t] && [t][1..] == [] && [c][1..] == [] && [c][..0] == [];
    assert RoundsIn([t], turn) == [t];
    assert RoundsIn([r, t], turn) == [r, t];
    SortOfTwo(r, t);
    assert CodesIn([c], turn) == [c];
    assert Sort([], CODE_START) == [];
    assert Sort([c], CODE_START) == [c];
  }

  lemma TakersOfTwo(r: LlmRecord, t: LlmRecord, at: int, end: int)
    requires r.end <= at < t.start && t.end <= at < end
    ensures Takers([r, t], at, end) == 2
  {
    assert [r, t][1..] == [t] && [t][1..] == [];
    assert Takes([t], 0, at, end) && Takes([r, t], 0, at, end);
    assert Takers([], at, end) == 0;
    assert Takers([t], at, end) == 1;
  }
}
