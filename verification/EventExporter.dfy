/**
 The span-to-event exporter: it buffers the timings of LLM and code spans and, when a turn span arrives, emits one
 `round_complete` per buffered agent round inside the turn, crediting each with the code that ran until the next round.

 Times are nanoseconds. A span's `id` tells exported spans apart in the model; `key` is the (trace id, span id) pair the
 exporter deduplicates by, absent for a span without a context.
 */
module EventExporter {
  import opened Options
  import opened StableSort

  datatype Kind = Llm(hasInput: bool, agentRound: bool) | Code | Turn | Unrelated

  /** Whether the span's handler raises: early, when it looks up the step the span belongs to and finds a line in the file that
      it cannot read; or late, when an attribute of the span does not convert. */
  datatype Raising = Never | Early | Late

  datatype Span = Span(id: nat, key: Option<nat>, kind: Kind, start: int, end: int, raises: Raising)

  datatype LlmRecord = LlmRecord(id: nat, start: int, end: int, agentRound: bool)

  datatype CodeRecord = CodeRecord(id: nat, start: int, end: int)

  datatype Event =
    | LlmCall(at: int, span: nat)
    | ReplExecute(at: int, span: nat)
    | RoundComplete(at: int, span: nat, depthRound: nat, llmTime: int, replTime: int)
    | StepComplete(at: int, span: nat, rounds: nat)

  datatype Buffers = Buffers(llm: seq<LlmRecord>, code: seq<CodeRecord>, emitted: seq<Event>)

  const EMPTY := Buffers([], [], [])

  function Duration(start: int, end: int): nat {
    if end < start then 0 else end - start
  }

  // --------------------------------------------------------------------------------------------------- the handlers

  /** Phase 1 of a batch: an LLM or code span is buffered and reported, unless its handler raises before that. */
  function Intake(b: Buffers, span: Span): Buffers {
    match span.kind
    case Llm(hasInput, agentRound) =>
      if !hasInput || span.raises.Early? then b
      else b.(llm := b.llm + [LlmRecord(span.id, span.start, span.end, agentRound)],
              emitted := b.emitted + [LlmCall(span.start, span.id)])
    case Code =>
      if span.raises.Early? then b
      else
        b.(code := b.code + [CodeRecord(span.id, span.start, span.end)],
           emitted := b.emitted + [ReplExecute(span.start, span.id)])
    case _ => b
  }

  predicate InWindow(start: int, turn: Span) {
    turn.start <= start < turn.end
  }

  function RoundsIn(llm: seq<LlmRecord>, turn: Span): seq<LlmRecord> {
    if llm == [] then []
    else (if llm[0].agentRound && InWindow(llm[0].start, turn) then [llm[0]] else []) + RoundsIn(llm[1..], turn)
  }

  function CodesIn(code: seq<CodeRecord>, turn: Span): seq<CodeRecord> {
    if code == [] then []
    else (if InWindow(code[0].start, turn) then [code[0]] else []) + CodesIn(code[1..], turn)
  }

  function LlmFrom(llm: seq<LlmRecord>, end: int): seq<LlmRecord> {
    if llm == [] then [] else (if llm[0].start >= end then [llm[0]] else []) + LlmFrom(llm[1..], end)
  }

  function CodeFrom(code: seq<CodeRecord>, end: int): seq<CodeRecord> {
    if code == [] then [] else (if code[0].start >= end then [code[0]] else []) + CodeFrom(code[1..], end)
  }

  /** Time of the code that started in [from, to). */
  function CodeTime(codes: seq<CodeRecord>, from: int, to: int): nat {
    if codes == [] then 0
    else
      (if from <= codes[0].start < to then Duration(codes[0].start, codes[0].end) else 0)
      + CodeTime(codes[1..], from, to)
  }

  /** One event per round; the code credited to it ran after its LLM call and before the next round starts. */
  function RoundEvents(rounds: seq<LlmRecord>, depth: nat, codes: seq<CodeRecord>, turnEnd: int): seq<Event> {
    if rounds == [] then []
    else
      var next := if |rounds| > 1 then rounds[1].start else turnEnd;
      var r := rounds[0];
      [RoundComplete(r.start, r.id, depth, Duration(r.start, r.end), CodeTime(codes, r.end, next))]
      + RoundEvents(rounds[1..], depth + 1, codes, turnEnd)
  }

  const LLM_START := (r: LlmRecord) => r.start
  const CODE_START := (c: CodeRecord) => c.start
  const EVENT_TIME := (e: Event) => e.at

  /** Phase 2: a turn span closes the rounds inside it and drops every record at or before its end. */
  function CloseTurn(b: Buffers, turn: Span): Buffers {
    var rounds := Sort(RoundsIn(b.llm, turn), LLM_START);
    var codes := Sort(CodesIn(b.code, turn), CODE_START);
    Buffers(
      LlmFrom(b.llm, turn.end),
      CodeFrom(b.code, turn.end),
      b.emitted + RoundEvents(rounds, 0, codes, turn.end) + [StepComplete(turn.end, turn.id, |rounds|)])
  }

  /** What one span does; the order in which spans are handled is the exporter's. */
  function Handle(b: Buffers, span: Span): Buffers {
    if span.kind.Turn? then CloseTurn(b, span) else Intake(b, span)
  }

  function HandleAll(b: Buffers, spans: seq<Span>): Buffers
    decreases |spans|
  {
    if spans == [] then b else HandleAll(Handle(b, spans[0]), spans[1..])
  }

  lemma {:induction false} HandleAppend(b: Buffers, front: seq<Span>, back: seq<Span>)
    ensures HandleAll(b, front + back) == HandleAll(HandleAll(b, front), back)
    decreases |front|
  {
    if front == [] {
      assert front + back == back;
    } else {
      HandleAppend(Handle(b, front[0]), front[1..], back);
      assert (front + back)[1..] == front[1..] + back;
    }
  }

  lemma HandleOneMore(b: Buffers, front: seq<Span>, span: Span)
    ensures HandleAll(b, front + [span]) == Handle(HandleAll(b, front), span)
  {
    HandleAppend(b, front, [span]);
    assert [span][1..] == [];
  }

  lemma HandleAtMostOne(b: Buffers, spans: seq<Span>)
    requires |spans| <= 1
    ensures HandleAll(b, spans) == if spans == [] then b else Handle(b, spans[0])
  {
  }

  // ------------------------------------------------------------------------------------------------------- batches

  predicate Repeated(seen: set<nat>, span: Span) {
    span.key.Some? && span.key.value in seen
  }

  /** The spans of a batch that were not seen before. */
  function Unseen(seen: set<nat>, batch: seq<Span>): seq<Span>
    decreases |batch|
  {
    if batch == [] then []
    else if Repeated(seen, batch[0]) then Unseen(seen, batch[1..])
    else [batch[0]] + Unseen(seen + Keys([batch[0]]), batch[1..])
  }

  function Keys(batch: seq<Span>): set<nat> {
    set i | 0 <= i < |batch| && batch[i].key.Some? :: batch[i].key.value
  }

  lemma KeysOneMore(batch: seq<Span>, span: Span)
    ensures Keys(batch + [span]) == Keys(batch) + Keys([span])
  {
    var all := batch + [span];
    forall key ensures key in Keys(all) <==> key in Keys(batch) + Keys([span]) {
      if key in Keys(all) {
        var i :| 0 <= i < |all| && all[i].key == Some(key);
        if i < |batch| { assert batch[i].key == Some(key); } else { assert [span][0].key == Some(key); }
      }
      if key in Keys(batch) {
        var i :| 0 <= i < |batch| && batch[i].key == Some(key);
        assert all[i].key == Some(key);
      }
      if key in Keys([span]) { assert all[|batch|].key == Some(key); }
    }
  }

  function Children(batch: seq<Span>): seq<Span> {
    if batch == [] then [] else (if batch[0].kind.Turn? then [] else [batch[0]]) + Children(batch[1..])
  }

  function Turns(batch: seq<Span>): seq<Span> {
    if batch == [] then [] else (if batch[0].kind.Turn? then [batch[0]] else []) + Turns(batch[1..])
  }

  /** The handler of the span raises. */
  predicate Fails(span: Span) {
    !span.raises.Never? &&
    match span.kind
    case Llm(hasInput, _) => hasInput
    case Code => true
    case Turn => true
    case Unrelated => false
  }

  predicate AnyFails(spans: seq<Span>) {
    exists i :: 0 <= i < |spans| && Fails(spans[i])
  }

  /** What phase 1 gets through: everything up to the first new child whose handler raises. */
  function Reached(seen: set<nat>, batch: seq<Span>): seq<Span>
    decreases |batch|
  {
    if batch == [] then []
    else if !Repeated(seen, batch[0]) && !batch[0].kind.Turn? && Fails(batch[0]) then [batch[0]]
    else [batch[0]] + Reached(seen + Keys([batch[0]]), batch[1..])
  }

  /** What phase 2 gets through. */
  function Sound(turns: seq<Span>): seq<Span> {
    if turns == [] || Fails(turns[0]) then [] else [turns[0]] + Sound(turns[1..])
  }

  lemma NothingTaken(seen: set<nat>, b: Buffers)
    ensures Unseen(seen, []) == [] && Reached(seen, []) == [] && Children([]) == [] && Turns([]) == [] && Keys([]) == {}
    ensures HandleAll(b, []) == b
  {
  }

  lemma Regroup(a: seq<Span>, b: seq<Span>, c: seq<Span>)
    ensures a + (b + c) == (a + b) + c
  {
  }

  lemma KeysOfOne(span: Span)
    ensures Keys([span]) == (if span.key.Some? then {span.key.value} else {})
  {
    if span.key.Some? { assert [span][0].key == span.key; }
  }

  lemma {:induction false} KeysAppend(a: seq<Span>, b: seq<Span>)
    ensures Keys(a + b) == Keys(a) + Keys(b)
  {
    if b == [] {
      assert a + b == a;
    } else {
      var front, last := b[..|b| - 1], b[|b| - 1];
      KeysAppend(a, front);
      KeysOneMore(a + front, last);
      KeysOneMore(front, last);
      assert a + b == a + front + [last] && b == front + [last];
    }
  }

  /** One span of phase 1. */
  lemma UnseenStep(seen: set<nat>, batch: seq<Span>)
    requires batch != []
    ensures
      var span := batch[0];
      var repeated := Repeated(seen, span);
      var stop := !repeated && !span.kind.Turn? && Fails(span);
      var seen' := if span.key.Some? then seen + {span.key.value} else seen;
      var tail := if stop then [] else Reached(seen', batch[1..]);
      var rest := Unseen(seen', tail);
      && Children(Unseen(seen, Reached(seen, batch))) ==
           (if repeated || span.kind.Turn? then [] else [span]) + Children(rest)
      && Turns(Unseen(seen, Reached(seen, batch))) == (if repeated || !span.kind.Turn? then [] else [span]) + Turns(rest)
      && seen + Keys(Reached(seen, batch)) == seen' + Keys(tail)
  {
    var span := batch[0];
    KeysOfOne(span);
    var stop := !Repeated(seen, span) && !span.kind.Turn? && Fails(span);
    var seen' := seen + Keys([span]);
    assert span.key.None? ==> seen' == seen;
    var tail := if stop then [] else Reached(seen', batch[1..]);
    assert Reached(seen, batch) == [span] + tail;
    assert ([span] + tail)[1..] == tail;
    KeysAppend([span], tail);
    assert Repeated(seen, span) ==> seen' == seen;
    var rest := Unseen(seen', tail);
    assert Unseen(seen, [span] + tail) == if Repeated(seen, span) then rest else [span] + rest;
    assert ([span] + rest)[1..] == rest;
  }

  lemma {:induction false} TurnsAreTurns(batch: seq<Span>)
    ensures forall i :: 0 <= i < |Turns(batch)| ==> Turns(batch)[i].kind.Turn?
  {
    if batch != [] { TurnsAreTurns(batch[1..]); }
  }

  /** The order in which a batch is handled: all children first, then the turns. */
  function HandlingOrder(seen: set<nat>, batch: seq<Span>): seq<Span> {
    Children(Unseen(seen, batch)) + Turns(Unseen(seen, batch))
  }

  /** A handler of the batch raises. */
  predicate Lost(seen: set<nat>, batch: seq<Span>) {
    AnyFails(Unseen(seen, batch))
  }

  /** The spans of the batch that leave a mark on the buffers. */
  function HandledPart(seen: set<nat>, batch: seq<Span>): seq<Span> {
    var taken := Unseen(seen, Reached(seen, batch));
    Children(taken) + if AnyFails(Children(taken)) then [] else Sound(Turns(taken))
  }

  function SeenAfter(seen: set<nat>, batch: seq<Span>): set<nat> {
    seen + Keys(Reached(seen, batch))
  }

  /** One call of `export`. When a handler raises, the events of the whole batch are dropped, while what was buffered and
      marked as seen before stays. */
  function ExportBatch(b: Buffers, seen: set<nat>, batch: seq<Span>): Buffers {
    var after := HandleAll(b, HandledPart(seen, batch));
    if Lost(seen, batch) then after.(emitted := b.emitted) else after
  }

  lemma {:induction false} PartsFail(spans: seq<Span>)
    ensures AnyFails(spans) <==> AnyFails(Children(spans)) || AnyFails(Turns(spans))
  {
    if spans != [] {
      hide AnyFails, Fails;
      PartsFail(spans[1..]);
      FailsCons(spans[0], spans[1..]);
      FailsCons(spans[0], Children(spans[1..]));
      FailsCons(spans[0], Turns(spans[1..]));
      assert spans == [spans[0]] + spans[1..];
      assert [] + Children(spans[1..]) == Children(spans[1..]) && [] + Turns(spans[1..]) == Turns(spans[1..]);
      assert AnyFails(spans) <==> AnyFails(Children(spans)) || AnyFails(Turns(spans));
    }
  }

  lemma FailsCons(span: Span, spans: seq<Span>)
    ensures AnyFails([span] + spans) <==> Fails(span) || AnyFails(spans)
  {
    var all := [span] + spans;
    if Fails(span) { assert Fails(all[0]); }
    if AnyFails(spans) {
      var i :| 0 <= i < |spans| && Fails(spans[i]);
      assert all[i + 1] == spans[i];
    }
  }

  lemma {:induction false} SoundTurns(turns: seq<Span>)
    ensures Sound(turns) == turns <==> !AnyFails(turns)
    ensures Sound(turns) <= turns
  {
    if turns != [] {
      SoundTurns(turns[1..]);
      FailsCons(turns[0], turns[1..]);
      assert turns == [turns[0]] + turns[1..];
    }
  }

  /** Phase 1 gets through the whole batch unless a new child fails. */
  lemma {:induction false} ReachedAll(seen: set<nat>, batch: seq<Span>)
    ensures AnyFails(Children(Unseen(seen, Reached(seen, batch)))) <==> AnyFails(Children(Unseen(seen, batch)))
    ensures !AnyFails(Children(Unseen(seen, batch))) ==> Reached(seen, batch) == batch
    decreases |batch|
  {
    if batch != [] {
      hide Fails, Keys;
      var span := batch[0];
      var seen' := seen + Keys([span]);
      KeysOfOne(span);
      var stop := !Repeated(seen, span) && !span.kind.Turn? && Fails(span);
      var tail := if stop then [] else Reached(seen', batch[1..]);
      assert Reached(seen, batch) == [span] + tail && ([span] + tail)[1..] == tail;
      assert Repeated(seen, span) ==> seen' == seen;
      ReachedAll(seen', batch[1..]);
      ChildrenOfUnseen(seen, batch);
      ChildrenOfUnseen(seen, [span] + tail);
      FailsCons(span, Children(Unseen(seen', tail)));
      FailsCons(span, Children(Unseen(seen', batch[1..])));
      assert batch == [span] + batch[1..];
    }
  }

  lemma ChildrenOfUnseen(seen: set<nat>, batch: seq<Span>)
    requires batch != []
    ensures
      var rest := Children(Unseen(seen + Keys([batch[0]]), batch[1..]));
      Children(Unseen(seen, batch)) == if Repeated(seen, batch[0]) || batch[0].kind.Turn? then rest else [batch[0]] + rest
  {
    var span := batch[0];
    KeysOfOne(span);
    assert Repeated(seen, span) ==> seen + Keys([span]) == seen;
    var rest := Unseen(seen + Keys([span]), batch[1..]);
    assert ([span] + rest)[1..] == rest;
  }

  /** A batch none of whose handlers raises is handled whole; otherwise it is lost. */
  lemma WholeBatch(seen: set<nat>, batch: seq<Span>)
    ensures !Lost(seen, batch) ==>
              && HandledPart(seen, batch) == HandlingOrder(seen, batch)
              && SeenAfter(seen, batch) == seen + Keys(batch)
    ensures
      var taken := Unseen(seen, Reached(seen, batch));
      Lost(seen, batch) <==> AnyFails(Children(taken)) || Sound(Turns(taken)) != Turns(taken)
  {
    hide Fails, Keys, Unseen, Children, Turns;
    ReachedAll(seen, batch);
    PartsFail(Unseen(seen, batch));
    SoundTurns(Turns(Unseen(seen, batch)));
  }

  lemma NoneFails()
    ensures !AnyFails([])
  {}

  lemma OneMoreFails(spans: seq<Span>, span: Span)
    ensures AnyFails(spans + [span]) <==> AnyFails(spans) || Fails(span)
  {
    var all := spans + [span];
    if Fails(span) { assert Fails(all[|spans|]); }
    if AnyFails(spans) {
      var i :| 0 <= i < |spans| && Fails(spans[i]);
      assert all[i] == spans[i];
    }
  }

  lemma FirstIsHandled(b: Buffers, span: Span, spans: seq<Span>)
    ensures HandleAll(b, [span] + spans) == HandleAll(Handle(b, span), spans)
  {
    assert ([span] + spans)[1..] == spans;
  }

  class Exporter {
    var seen: set<nat>
    var llmRecords: seq<LlmRecord>
    var codeRecords: seq<CodeRecord>
    /** events.jsonl */
    var log: seq<Event>
    ghost var emitted: seq<Event>

    ghost function View(): Buffers
      reads this
    {
      Buffers(llmRecords, codeRecords, emitted)
    }

    /** The file holds exactly the emitted events. */
    ghost predicate Valid()
      reads this
    {
      multiset(log) == multiset(emitted)
    }

    constructor ()
      ensures Valid() && View() == EMPTY && seen == {} && log == []
    {
      seen, llmRecords, codeRecords, log, emitted := {}, [], [], [], [];
    }

    /** One batch: deduplicate, buffer the children, close the turns, and append the new events in time order. The batch
        is lost, and the file left alone, if and only if the handler of a new span raises. */
    method Export(spans: seq<Span>) returns (success: bool)
      requires Valid()
      modifies this
      ensures Valid()
      ensures View() == ExportBatch(old(View()), old(seen), spans)
      ensures seen == SeenAfter(old(seen), spans)
      ensures success <==> !Lost(old(seen), spans)
      ensures old(log) <= log && Ascending(log[|old(log)|..], EVENT_TIME)
      ensures !success ==> log == old(log) && emitted == old(emitted)
    {
      hide Unseen, Children, Turns, Keys, HandleAll, Handle, Reached, Sound, AnyFails;
      ghost var taken := Unseen(seen, Reached(seen, spans));
      WholeBatch(seen, spans);
      ghost var children, turns := Children(taken), Turns(taken);
      HandleAppend(View(), children, if AnyFails(children) then [] else Sound(turns));
      var handles, pending, fine := BufferBatch(spans);
      NothingTaken(seen, View());
      success := fine;
      if fine {
        TurnsAreTurns(taken);
        var more;
        more, success := CloseTurns(handles);
        pending := pending + more;
      }
      if !success {
        emitted := old(emitted);
        return;
      }
      SortSorts(pending, EVENT_TIME);
      log := log + Sort(pending, EVENT_TIME);
    }

    /** Phase 1: turn spans are set aside, every other new span is buffered, up to one whose handler raises. */
    method BufferBatch(spans: seq<Span>) returns (handles: seq<Span>, pending: seq<Event>, fine: bool)
      modifies this`seen, this`llmRecords, this`codeRecords, this`emitted
      ensures handles == Turns(Unseen(old(seen), Reached(old(seen), spans)))
      ensures View() == HandleAll(old(View()), Children(Unseen(old(seen), Reached(old(seen), spans))))
      ensures emitted == old(emitted) + pending
      ensures seen == SeenAfter(old(seen), spans)
      ensures fine <==> !AnyFails(Children(Unseen(old(seen), Reached(old(seen), spans))))
    {
      hide Unseen, Children, Turns, Keys, HandleAll, Handle, Reached, AnyFails, Fails;
      handles, pending, fine := [], [], true;
      ghost var before, taken := View(), Unseen(seen, Reached(seen, spans));
      ghost var keys := SeenAfter(seen, spans);
      NothingTaken(seen, before);
      NoneFails();
      assert spans[0..] == spans && [] + Children(taken) == Children(taken) && [] + Turns(taken) == Turns(taken);
      ghost var children: seq<Span> := [];
      var i := 0;
      while i < |spans| && fine
        invariant 0 <= i <= |spans|
        invariant fine ==> keys == seen + Keys(Reached(seen, spans[i..]))
        invariant fine ==> Children(taken) == children + Children(Unseen(seen, Reached(seen, spans[i..])))
        invariant fine ==> Turns(taken) == handles + Turns(Unseen(seen, Reached(seen, spans[i..])))
        invariant !fine ==> keys == seen && Children(taken) == children && Turns(taken) == handles
        invariant fine <==> !AnyFails(children)
        invariant View() == HandleAll(before, children) && emitted == before.emitted + pending
      {
        var span := spans[i];
        assert spans[i..][0] == span && spans[i..][1..] == spans[i + 1..];
        UnseenStep(seen, spans[i..]);
        ghost var seen' := if span.key.Some? then seen + {span.key.value} else seen;
        ghost var child := if Repeated(seen, span) || span.kind.Turn? then [] else [span];
        ghost var tail := if child != [] && Fails(span) then [] else Reached(seen', spans[i + 1..]);
        ghost var rest := Unseen(seen', tail);
        HandleAppend(before, children, child);
        HandleAtMostOne(HandleAll(before, children), child);
        OneMoreFails(children, span);
        var turn, events, ok := TakeSpan(span);
        Regroup(children, child, Children(rest));
        Regroup(handles, turn, Turns(rest));
        NothingTaken(seen', before);
        assert children + child + [] == children + child && handles + turn + [] == handles + turn;
        assert children + [] == children;
        handles, pending, children := handles + turn, pending + events, children + child;
        fine, i := ok, i + 1;
      }
      NothingTaken(seen, before);
      assert spans[|spans|..] == [];
      assert children + [] == children && handles + [] == handles && seen + {} == seen;
    }

    /** One span of phase 1. */
    method TakeSpan(span: Span) returns (turn: seq<Span>, events: seq<Event>, fine: bool)
      modifies this`seen, this`llmRecords, this`codeRecords, this`emitted
      ensures seen == if span.key.Some? then old(seen) + {span.key.value} else old(seen)
      ensures turn == if Repeated(old(seen), span) || !span.kind.Turn? then [] else [span]
      ensures View() == if Repeated(old(seen), span) || span.kind.Turn? then old(View()) else Handle(old(View()), span)
      ensures emitted == old(emitted) + events
      ensures fine <==> (Repeated(old(seen), span) || span.kind.Turn? || !Fails(span))
    {
      turn, events, fine := [], [], true;
      if Repeated(seen, span) { return; }
      if span.key.Some? { seen := seen + {span.key.value}; }
      if span.kind.Turn? {
        turn := [span];
      } else {
        events, fine := BufferChild(span);
      }
    }

    /** Phase 2, up to a turn whose handler raises. */
    method CloseTurns(handles: seq<Span>) returns (pending: seq<Event>, fine: bool)
      requires forall i :: 0 <= i < |handles| ==> handles[i].kind.Turn?
      modifies this`llmRecords, this`codeRecords, this`emitted
      ensures View() == HandleAll(old(View()), Sound(handles))
      ensures emitted == old(emitted) + pending
      ensures fine <==> Sound(handles) == handles
    {
      hide HandleAll, Handle, Fails;
      pending, fine := [], true;
      for i := 0 to |handles|
        invariant HandleAll(View(), Sound(handles[i..])) == HandleAll(old(View()), Sound(handles))
        invariant emitted == old(emitted) + pending
        invariant Sound(handles) == handles[..i] + Sound(handles[i..])
      {
        var turn := handles[i];
        assert handles[i..][0] == turn && handles[i..][1..] == handles[i + 1..];
        NothingTaken({}, View());
        if Fails(turn) {
          assert Sound(handles) == handles[..i];
          return pending, false;
        }
        assert handles[..i + 1] == handles[..i] + [turn];
        FirstIsHandled(View(), turn, Sound(handles[i + 1..]));
        var events := EmitTurn(turn);
        pending := pending + events;
      }
      assert handles[|handles|..] == [] && handles[..|handles|] == handles;
      NothingTaken({}, View());
    }

    /** What a handler that raises late would have reported is lost with the batch; the span is buffered by then. */
    method BufferChild(span: Span) returns (events: seq<Event>, fine: bool)
      requires !span.kind.Turn?
      modifies this`llmRecords, this`codeRecords, this`emitted
      ensures View() == Handle(old(View()), span) && emitted == old(emitted) + events
      ensures fine <==> !Fails(span)
    {
      events, fine := [], !Fails(span);
      match span.kind {
        case Llm(hasInput, agentRound) =>
          if hasInput && !span.raises.Early? {
            llmRecords := llmRecords + [LlmRecord(span.id, span.start, span.end, agentRound)];
            events := [LlmCall(span.start, span.id)];
          }
        case Code =>
          if !span.raises.Early? {
            codeRecords := codeRecords + [CodeRecord(span.id, span.start, span.end)];
            events := [ReplExecute(span.start, span.id)];
          }
        case _ =>
      }
      emitted := emitted + events;
    }

    method EmitTurn(turn: Span) returns (events: seq<Event>)
      requires turn.kind.Turn?
      modifies this`llmRecords, this`codeRecords, this`emitted
      ensures View() == Handle(old(View()), turn) && emitted == old(emitted) + events
    {
      var rounds := Sort(RoundsIn(llmRecords, turn), LLM_START);
      var codes := Sort(CodesIn(codeRecords, turn), CODE_START);
      events := [];
      for i := 0 to |rounds|
        invariant RoundEvents(rounds, 0, codes, turn.end) == events + RoundEvents(rounds[i..], i, codes, turn.end)
      {
        var r := rounds[i];
        var next := if i + 1 < |rounds| then rounds[i + 1].start else turn.end;
        assert rounds[i..][0] == r && rounds[i..][1..] == rounds[i + 1..];
        events := events +
          [RoundComplete(r.start, r.id, i, Duration(r.start, r.end), CodeTime(codes, r.end, next))];
      }
      events := events + [StepComplete(turn.end, turn.id, |rounds|)];
      emitted := emitted + events;
      llmRecords := LlmFrom(llmRecords, turn.end);
      codeRecords := CodeFrom(codeRecords, turn.end);
    }
  }
}
