/**
 The viewer's incremental reader of events.jsonl: each poll reads only the bytes after `_offset`, keeps the trailing
 partial line in `_buf`, and folds the complete lines into the game's statistics.
 */
module ViewerTail {
  import opened JsonLines
  import opened Options
  import opened ActionReader

  /** What a tracker has read since its last restart. */
  datatype Tail = Tail(offset: nat, folded: seq<Line>, buf: Line)

  const FRESH := Tail(0, [], [])

  /** A tail that has read exactly `bytes`: the one-shot reading of a file. */
  function OneShot(bytes: seq<Byte>): Tail {
    Tail(|bytes|, Lines(bytes), Partial(bytes))
  }

  /** One poll that learned `size` from stat and then found `content` in the file. */
  function Poll(t: Tail, size: nat, content: seq<Byte>): Tail {
    var from := if size < t.offset then FRESH else t;
    if size == from.offset then from
    else
      var data := from.buf + (if from.offset <= |content| then content[from.offset..] else []);
      Tail(size, from.folded + Lines(data), Partial(data))
  }

  /** Incremental equals one-shot: after a poll whose stat and read agree, the tail is as if the whole file had been
      read at once, whether the file was appended to or had shrunk. */
  lemma PollIsOneShot(seen: seq<Byte>, content: seq<Byte>)
    requires seen <= content || |content| < |seen|
    ensures Poll(OneShot(seen), |content|, content) == OneShot(content)
  {
    if |content| < |seen| {
      assert content[0..] == content && [] + content == content;
      assert [] + Lines(content) == Lines(content);
    } else if |content| == |seen| {
      assert seen == content;
    } else {
      assert content == seen + content[|seen|..];
      LinesOfGrownFile(seen, content[|seen|..]);
    }
  }

  function Polls(t: Tail, contents: seq<seq<Byte>>): Tail
    decreases |contents|
  {
    if contents == [] then t else Polls(Poll(t, |contents[0]|, contents[0]), contents[1..])
  }

  /** Every observed file extends the one before it or is shorter. */
  ghost predicate AppendedOrShrunk(seen: seq<Byte>, contents: seq<seq<Byte>>)
    decreases |contents|
  {
    contents != [] ==>
      && (seen <= contents[0] || |contents[0]| < |seen|)
      && AppendedOrShrunk(contents[0], contents[1..])
  }

  /** However the polls cut the stream, the result is the one-shot reading of the last file seen. */
  lemma {:induction false} PollsAreOneShot(seen: seq<Byte>, contents: seq<seq<Byte>>)
    requires AppendedOrShrunk(seen, contents)
    ensures Polls(OneShot(seen), contents) == OneShot(if contents == [] then seen else contents[|contents| - 1])
    decreases |contents|
  {
    if contents != [] {
      PollIsOneShot(seen, contents[0]);
      PollsAreOneShot(contents[0], contents[1..]);
    }
  }

  /** `_offset` is taken from stat, not from the read: when the file grows in between, the poll has read more than it
      will remember. The tail is then exact if and only if nothing was appended between stat and read. */
  lemma PollIsExactIff(seen: seq<Byte>, content: seq<Byte>, size: nat)
    requires seen <= content && |seen| < size <= |content|
    ensures Poll(OneShot(seen), size, content) == OneShot(content[..size]) <==> size == |content|
  {
    var data := Partial(seen) + content[|seen|..];
    assert content == seen + content[|seen|..];
    LinesOfGrownFile(seen, content[|seen|..]);
    var polled := Poll(OneShot(seen), size, content);
    assert polled.folded == Lines(content) && polled.buf == Partial(content);
    if polled == OneShot(content[..size]) {
      SplitIsInjective(content[..size], content);
    }
    assert content[..|content|] == content;
  }

  /** Lines `b` appended between the stat and the read of one poll are folded by that poll and again by the next. */
  lemma GrowthDuringPollFoldsTwice(seen: seq<Byte>, a: seq<Byte>, b: seq<Byte>)
    requires a != [] && b != [] && Partial(seen + a) == [] && Partial(seen + a + b) == []
    ensures
      var grown := seen + a + b;
      var polled := Poll(Poll(OneShot(seen), |seen + a|, grown), |grown|, grown);
      polled.folded == Lines(grown) + Lines(b) && Lines(b) != []
  {
    hide Lines, Partial;
    var grown := seen + a + b;
    assert grown == seen + grown[|seen|..];
    LinesOfGrownFile(seen, grown[|seen|..]);
    assert Poll(OneShot(seen), |seen + a|, grown) == Tail(|seen + a|, Lines(grown), []);
    assert grown[|seen + a|..] == b && [] + b == b;
    LinesOfGrownFile(seen + a, b);
    NoLinesNoPartial(b);
  }

  lemma NoLinesNoPartial(bytes: seq<Byte>)
    ensures bytes != [] && Partial(bytes) == [] ==> Lines(bytes) != []
  {}

  // ------------------------------------------------------------------------------------------------- the tracker

  function FoldRecords<S, E>(update: (S, E) -> S, stats: S, records: seq<E>): S
    decreases |records|
  {
    if records == [] then stats else FoldRecords(update, update(stats, records[0]), records[1..])
  }

  lemma {:induction false} FoldAppend<S, E>(update: (S, E) -> S, stats: S, a: seq<E>, b: seq<E>)
    ensures FoldRecords(update, stats, a + b) == FoldRecords(update, FoldRecords(update, stats, a), b)
    decreases |a|
  {
    if a == [] {
      assert a + b == b;
    } else {
      FoldAppend(update, update(stats, a[0]), a[1..], b);
      assert (a + b)[1..] == a[1..] + b;
    }
  }

  /** How lines are folded: which records they hold, what `update` leaves of the statistics, and when it raises something that
      `poll` does not catch. */
  datatype Folding<!S, !E> = Folding(codec: Codec<E>, update: (S, E) -> S, escapes: (S, E) -> bool)

  function StatsAfter<S, E>(f: Folding<S, E>, stats: S, lines: seq<Line>): S {
    FoldRecords(f.update, stats, Records(f.codec, lines))
  }

  /** An exception leaves the poll at this line. */
  predicate EscapesAt<S, E>(f: Folding<S, E>, stats: S, line: Line) {
    RecordsOf(f.codec, line) != [] && f.escapes(stats, RecordsOf(f.codec, line)[0])
  }

  /** The lines up to and including the first at which an exception escapes. */
  function Through<S, E>(f: Folding<S, E>, stats: S, lines: seq<Line>): seq<Line>
    decreases |lines|
  {
    if lines == [] then []
    else
      [lines[0]] +
      if EscapesAt(f, stats, lines[0]) then [] else Through(f, StatsAfter(f, stats, [lines[0]]), lines[1..])
  }

  /** Some line is one. */
  function AnyEscapes<S, E>(f: Folding<S, E>, stats: S, lines: seq<Line>): bool
    decreases |lines|
  {
    lines != [] &&
    (EscapesAt(f, stats, lines[0]) || AnyEscapes(f, StatsAfter(f, stats, [lines[0]]), lines[1..]))
  }

  /** Line `i` is one. */
  ghost predicate EscapesIn<S, E>(f: Folding<S, E>, stats: S, lines: seq<Line>, i: nat)
    requires i < |lines|
  {
    EscapesAt(f, StatsAfter(f, stats, lines[..i]), lines[i])
  }

  lemma StatsOfFirst<S, E>(f: Folding<S, E>, stats: S, lines: seq<Line>, i: nat)
    requires i < |lines| && i > 0
    ensures EscapesIn(f, stats, lines, i) == EscapesIn(f, StatsAfter(f, stats, [lines[0]]), lines[1..], i - 1)
  {
    assert lines[..i] == [lines[0]] + lines[1..][..i - 1];
    RecordsAppend(f.codec, [lines[0]], lines[1..][..i - 1]);
    FoldAppend(f.update, stats, Records(f.codec, [lines[0]]), Records(f.codec, lines[1..][..i - 1]));
  }

  lemma EscapesFirst<S, E>(f: Folding<S, E>, stats: S, lines: seq<Line>)
    requires lines != []
    ensures EscapesIn(f, stats, lines, 0) == EscapesAt(f, stats, lines[0])
  {
    assert lines[..0] == [];
  }

  lemma {:induction false} AnyEscapesIff<S, E>(f: Folding<S, E>, stats: S, lines: seq<Line>)
    ensures AnyEscapes(f, stats, lines) <==> exists i: nat :: i < |lines| && EscapesIn(f, stats, lines, i)
    decreases |lines|
  {
    if lines != [] {
      hide EscapesAt, EscapesIn, StatsAfter;
      var next, rest := StatsAfter(f, stats, [lines[0]]), lines[1..];
      AnyEscapesIff(f, next, rest);
      EscapesFirst(f, stats, lines);
      forall i: nat | 0 < i < |lines|
        ensures EscapesIn(f, stats, lines, i) == EscapesIn(f, next, rest, i - 1) {
        StatsOfFirst(f, stats, lines, i);
      }
      if i: nat :| i < |rest| && EscapesIn(f, next, rest, i) {
        assert EscapesIn(f, stats, lines, i + 1);
      }
    }
  }

  lemma {:induction false} ThroughIsAllIff<S, E>(f: Folding<S, E>, stats: S, lines: seq<Line>)
    ensures Through(f, stats, lines) <= lines
    ensures Through(f, stats, lines) == lines <==> forall i: nat :: i < |lines| - 1 ==> !EscapesIn(f, stats, lines, i)
    decreases |lines|
  {
    if lines != [] {
      hide EscapesAt, EscapesIn, StatsAfter;
      var next, rest := StatsAfter(f, stats, [lines[0]]), lines[1..];
      assert lines == [lines[0]] + rest;
      ThroughIsAllIff(f, next, rest);
      EscapesFirst(f, stats, lines);
      forall i: nat | 0 < i < |lines|
        ensures EscapesIn(f, stats, lines, i) == EscapesIn(f, next, rest, i - 1) {
        StatsOfFirst(f, stats, lines, i);
      }
      var through := Through(f, stats, lines);
      assert through[1..] == if EscapesAt(f, stats, lines[0]) then [] else Through(f, next, rest);
      assert through == lines <==> through[1..] == rest;
      if forall i: nat :: i < |lines| - 1 ==> !EscapesIn(f, stats, lines, i) {
        forall i: nat | i < |rest| - 1 ensures !EscapesIn(f, next, rest, i) {
          assert !EscapesIn(f, stats, lines, i + 1);
        }
      }
    }
  }

  /** One poll that may stop at a line: position and buffer have moved on by then. */
  function CrashingPoll<S, E>(f: Folding<S, E>, initial: S, t: Tail, size: nat, content: seq<Byte>): Tail {
    var from := if size < t.offset then FRESH else t;
    Poll(t, size, content).(
      folded := from.folded + Through(f, StatsAfter(f, initial, from.folded), Arrived(t, size, content)))
  }

  /** The complete lines that a poll finds. */
  function Arrived(t: Tail, size: nat, content: seq<Byte>): seq<Line> {
    var from := if size < t.offset then FRESH else t;
    if size == from.offset then []
    else Lines(from.buf + (if from.offset <= |content| then content[from.offset..] else []))
  }

  /** The lines after an escape are lost for good: the poll folds everything it finds if and only if no exception escapes at
      any line but the last. */
  lemma CrashLosesLinesIff<S, E>(f: Folding<S, E>, initial: S, t: Tail, size: nat, content: seq<Byte>)
    ensures
      var lines := Arrived(t, size, content);
      var stats := StatsAfter(f, initial, (if size < t.offset then FRESH else t).folded);
      CrashingPoll(f, initial, t, size, content) == Poll(t, size, content) <==>
      forall i: nat :: i < |lines| - 1 ==> !EscapesIn(f, stats, lines, i)
  {
    hide Lines, Partial, Through, EscapesIn, StatsAfter;
    var from := if size < t.offset then FRESH else t;
    ThroughIsAllIff(f, StatsAfter(f, initial, from.folded), Arrived(t, size, content));
    PollUpToCrash(f, initial, t, size, content);
  }

  lemma PollUpToCrash<S, E>(f: Folding<S, E>, initial: S, t: Tail, size: nat, content: seq<Byte>)
    ensures
      var lines := Arrived(t, size, content);
      var from := if size < t.offset then FRESH else t;
      var through := Through(f, StatsAfter(f, initial, from.folded), lines);
      && (CrashingPoll(f, initial, t, size, content) == Poll(t, size, content) <==> through == lines)
      && (size == from.offset ==> CrashingPoll(f, initial, t, size, content) == from == Poll(t, size, content))
  {
    var lines := Arrived(t, size, content);
    var from := if size < t.offset then FRESH else t;
    var through := Through(f, StatsAfter(f, initial, from.folded), lines);
    hide Lines, Partial, StatsAfter;
    assert from.folded + [] == from.folded;
    assert Poll(t, size, content).folded == from.folded + lines;
    assert (from.folded + through)[|from.folded|..] == through && (from.folded + lines)[|from.folded|..] == lines;
  }

  class GameTracker<S, E> {
    const folding: Folding<S, E>
    const initial: S
    var stats: S
    var offset: nat
    var buf: Line
    ghost var folded: seq<Line>

    ghost predicate Valid()
      reads this
    {
      stats == StatsAfter(folding, initial, folded)
    }

    ghost function View(): Tail
      reads this
    {
      Tail(offset, folded, buf)
    }

    constructor (folding: Folding<S, E>, initial: S)
      ensures Valid() && View() == FRESH
      ensures this.folding == folding && this.initial == initial
    {
      this.folding, this.initial := folding, initial;
      stats, offset, buf, folded := initial, 0, [], [];
    }

    /** `stat` and `content` are None when the file is missing or unreadable at that moment. The statistics are those of
        the lines folded since the last restart, the line of an escaping exception included, as far as it got. */
    method PollFile(stat: Option<nat>, content: Option<seq<Byte>>) returns (escaped: bool)
      requires Valid()
      modifies this
      ensures Valid()
      ensures stat.Some? && content.Some? ==> View() == CrashingPoll(folding, initial, old(View()), stat.value, content.value)
      ensures stat.Some? && content.Some? ==>
                var from := if stat.value < old(offset) then FRESH else old(View());
                escaped == AnyEscapes(
                  folding, StatsAfter(folding, initial, from.folded), Arrived(old(View()), stat.value, content.value))
      ensures stat.None? || content.None? ==> !escaped
      ensures stat.None? ==> View() == old(View())
      ensures stat.Some? && content.None? ==>
                View() == if stat.value < old(offset) then FRESH else old(View())
    {
      hide Lines, Partial, Through, Records, FoldRecords, EscapesAt;
      escaped := false;
      if stat.None? { return; }
      var size := stat.value;
      if size < offset {
        NothingFolded(folding, initial);
        stats, offset, buf, folded := initial, 0, [], [];
      }
      if content.Some? { PollUpToCrash(folding, initial, old(View()), size, content.value); }
      if size == offset { return; }
      if content.None? { return; }
      var chunk := if offset <= |content.value| then content.value[offset..] else [];
      offset := size;
      var data := buf + chunk;
      buf := Partial(data);
      escaped := FoldLines(Lines(data));
    }

    static lemma Regroup(a: seq<Line>, line: Line, b: seq<Line>)
      ensures a + ([line] + b) == a + [line] + b
    {}

    method FoldLines(lines: seq<Line>) returns (escaped: bool)
      requires Valid()
      modifies this`stats, this`folded
      ensures Valid() && folded == old(folded) + Through(folding, old(stats), lines)
      ensures escaped == AnyEscapes(folding, old(stats), lines)
    {
      hide EscapesAt, StatsAfter, Records, FoldRecords, Through, AnyEscapes;
      NoMoreLines(folding, stats);
      for i := 0 to |lines|
        invariant folded + Through(folding, stats, lines[i..]) == old(folded) + Through(folding, old(stats), lines)
        invariant Through(folding, old(stats), lines) == lines[..i] + Through(folding, stats, lines[i..]) && Valid()
        invariant AnyEscapes(folding, stats, lines[i..]) == AnyEscapes(folding, old(stats), lines)
      {
        assert lines[i..][0] == lines[i] && lines[i..][1..] == lines[i + 1..];
        ghost var before := stats;
        ThroughFirst(folding, before, lines[i..]);
        var escapes := FoldLine(lines[i]);
        if escapes {
          assert Through(folding, before, lines[i..]) == [lines[i]];
          return true;
        }
        ghost var rest := Through(folding, stats, lines[i + 1..]);
        assert Through(folding, before, lines[i..]) == [lines[i]] + rest;
        Regroup(old(folded), lines[i], rest);
        Regroup(folded[..|folded| - 1], lines[i], rest);
        Regroup(lines[..i], lines[i], rest);
        assert lines[..i + 1] == lines[..i] + [lines[i]];
      }
      assert lines[|lines|..] == [];
      NoMoreLines(folding, stats);
      return false;
    }

    /** Blank and malformed lines are skipped; every other line updates the statistics, up to an exception if it raises one. */
    method FoldLine(raw: Line) returns (escapes: bool)
      requires Valid()
      modifies this`stats, this`folded
      ensures Valid() && folded == old(folded) + [raw] && stats == StatsAfter(folding, old(stats), [raw])
      ensures escapes == EscapesAt(folding, old(stats), raw)
    {
      ghost var records := RecordsOf(folding.codec, raw);
      ghost var before := folded;
      OneMoreFolded(folding, initial, folded, raw);
      folded := folded + [raw];
      escapes := false;
      if !folding.codec.blank(raw) {
        var event := folding.codec.parse(raw);
        if event.Some? {
          escapes := folding.escapes(stats, event.value);
          assert records == [event.value];
          FoldOfOne(folding.update, stats, event.value);
          stats := folding.update(stats, event.value);
        }
      }
    }
  }

  lemma NoMoreLines<S, E>(f: Folding<S, E>, stats: S)
    ensures Through(f, stats, []) == [] && !AnyEscapes(f, stats, [])
  {}

  lemma ThroughFirst<S, E>(f: Folding<S, E>, stats: S, lines: seq<Line>)
    requires lines != []
    ensures
      var next := StatsAfter(f, stats, [lines[0]]);
      && Through(f, stats, lines) ==
           [lines[0]] + (if EscapesAt(f, stats, lines[0]) then [] else Through(f, next, lines[1..]))
      && AnyEscapes(f, stats, lines) == (EscapesAt(f, stats, lines[0]) || AnyEscapes(f, next, lines[1..]))
  {}

  lemma NothingFolded<S, E>(f: Folding<S, E>, stats: S)
    ensures StatsAfter(f, stats, []) == stats
  {}

  lemma FoldOfOne<S, E>(update: (S, E) -> S, stats: S, record: E)
    ensures FoldRecords(update, stats, [record]) == update(stats, record)
  {
    assert [record][1..] == [];
    assert FoldRecords(update, update(stats, record), []) == update(stats, record);
  }

  lemma OneMoreFolded<S, E>(f: Folding<S, E>, initial: S, lines: seq<Line>, line: Line)
    ensures StatsAfter(f, initial, lines + [line]) ==
            FoldRecords(f.update, StatsAfter(f, initial, lines), RecordsOf(f.codec, line))
    ensures Records(f.codec, [line]) == RecordsOf(f.codec, line)
  {
    RecordsAppend(f.codec, lines, [line]);
    assert [line][1..] == [];
    assert Records(f.codec, []) == [];
    assert RecordsOf(f.codec, line) + [] == RecordsOf(f.codec, line);
    FoldAppend(f.update, initial, Records(f.codec, lines), Records(f.codec, [line]));
  }
}
