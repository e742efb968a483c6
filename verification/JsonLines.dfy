/**
 Newline-terminated records in an append-only file: the complete lines of a byte string, the partial line after them,
 and how both behave when the file grows or is read in pieces. Every reader of the system's logs rests on these facts.
 */
module JsonLines {
  newtype Byte = x: int | 0 <= x < 256

  type Line = seq<Byte>

  const NEWLINE: Byte := 10

  /** Position of the first newline. */
  function FirstNewline(bytes: seq<Byte>): (i: nat)
    requires NEWLINE in bytes
    ensures i < |bytes| && bytes[i] == NEWLINE && NEWLINE !in bytes[..i]
  {
    if bytes[0] == NEWLINE then 0 else 1 + FirstNewline(bytes[1..])
  }

  /** The complete lines, without their newlines. */
  function Lines(bytes: seq<Byte>): seq<Line> {
    if NEWLINE !in bytes then []
    else
      var i := FirstNewline(bytes);
      [bytes[..i]] + Lines(bytes[i + 1..])
  }

  /** What follows the last newline. */
  function Partial(bytes: seq<Byte>): Line {
    if NEWLINE !in bytes then bytes
    else Partial(bytes[FirstNewline(bytes) + 1..])
  }

  /** The bytes of a list of complete lines. */
  function Join(lines: seq<Line>): seq<Byte> {
    if lines == [] then [] else lines[0] + [NEWLINE] + Join(lines[1..])
  }

  ghost predicate NewlineFree(lines: seq<Line>) {
    forall i :: 0 <= i < |lines| ==> NEWLINE !in lines[i]
  }

  lemma FirstNewlineIs(bytes: seq<Byte>, i: nat)
    requires i < |bytes| && bytes[i] == NEWLINE && NEWLINE !in bytes[..i]
    ensures FirstNewline(bytes) == i
  {
    var j := FirstNewline(bytes);
    assert forall k :: 0 <= k < j ==> bytes[..j][k] == bytes[k];
    assert forall k :: 0 <= k < i ==> bytes[..i][k] == bytes[k];
  }

  /** Splitting and joining are inverse: the lines and the partial line are the file. */
  lemma {:induction false} SplitThenJoin(bytes: seq<Byte>)
    ensures Join(Lines(bytes)) + Partial(bytes) == bytes
    decreases |bytes|
  {
    hide FirstNewline, Join, Lines, Partial;
    SplitOnce(bytes);
    if NEWLINE in bytes {
      var i := FirstNewline(bytes);
      var rest := bytes[i + 1..];
      SplitThenJoin(rest);
      JoinCons(bytes[..i], Lines(rest), Partial(rest));
      assert bytes[..i] + [NEWLINE] + rest == bytes;
      assert Join(Lines(bytes)) + Partial(bytes) == bytes;
    } else {
      JoinNothing();
    }
  }

  lemma JoinNothing()
    ensures Join([]) == []
  {}

  lemma JoinCons(line: Line, lines: seq<Line>, partial: Line)
    ensures Join([line] + lines) + partial == line + [NEWLINE] + (Join(lines) + partial)
  {
    assert ([line] + lines)[1..] == lines;
  }

  lemma {:induction false} SplitIsNewlineFree(bytes: seq<Byte>)
    ensures NewlineFree(Lines(bytes)) && NEWLINE !in Partial(bytes)
    decreases |bytes|
  {
    if NEWLINE in bytes {
      SplitIsNewlineFree(bytes[FirstNewline(bytes) + 1..]);
    }
  }

  lemma FirstLineIs(line: Line, rest: seq<Byte>)
    requires NEWLINE !in line
    ensures
      var bytes := line + [NEWLINE] + rest;
      && Lines(bytes) == [line] + Lines(rest)
      && Partial(bytes) == Partial(rest)
  {
    var bytes := line + [NEWLINE] + rest;
    assert bytes[..|line|] == line;
    FirstNewlineIs(bytes, |line|);
    assert bytes[|line| + 1..] == rest;
  }

  lemma {:induction false} JoinThenSplit(lines: seq<Line>, partial: Line)
    requires NewlineFree(lines) && NEWLINE !in partial
    ensures Lines(Join(lines) + partial) == lines
    ensures Partial(Join(lines) + partial) == partial
    decreases |lines|
  {
    if lines == [] {
      assert Join(lines) + partial == partial;
    } else {
      assert Join(lines) + partial == lines[0] + [NEWLINE] + (Join(lines[1..]) + partial);
      FirstLineIs(lines[0], Join(lines[1..]) + partial);
      JoinThenSplit(lines[1..], partial);
    }
  }

  /** Reading in pieces: the lines of a grown file are the old lines, then those of the old partial line plus the new
      bytes. */
  lemma {:induction false} LinesOfGrownFile(bytes: seq<Byte>, more: seq<Byte>)
    ensures Lines(bytes + more) == Lines(bytes) + Lines(Partial(bytes) + more)
    ensures Partial(bytes + more) == Partial(Partial(bytes) + more)
    decreases |bytes|
  {
    hide Lines, Partial, FirstNewline;
    if NEWLINE in bytes {
      var i := FirstNewline(bytes);
      var all := bytes + more;
      assert all[i] == NEWLINE && all[..i] == bytes[..i];
      FirstNewlineIs(all, i);
      assert all[i + 1..] == bytes[i + 1..] + more;
      LinesOfGrownFile(bytes[i + 1..], more);
      SplitOnce(bytes);
      SplitOnce(all);
      assert Lines(all) == [bytes[..i]] + (Lines(bytes[i + 1..]) + Lines(Partial(bytes[i + 1..]) + more));
    } else {
      SplitOnce(bytes);
      assert [] + Lines(bytes + more) == Lines(bytes + more);
    }
  }

  lemma SplitOnce(bytes: seq<Byte>)
    ensures NEWLINE !in bytes ==> Lines(bytes) == [] && Partial(bytes) == bytes
    ensures NEWLINE in bytes ==>
              var i := FirstNewline(bytes);
              && Lines(bytes) == [bytes[..i]] + Lines(bytes[i + 1..])
              && Partial(bytes) == Partial(bytes[i + 1..])
  {}

  /** The bytes are determined by, and determine, the lines and the partial line. */
  lemma SplitIsInjective(a: seq<Byte>, b: seq<Byte>)
    requires Lines(a) == Lines(b) && Partial(a) == Partial(b)
    ensures a == b
  {
    SplitThenJoin(a);
    SplitThenJoin(b);
  }
}
