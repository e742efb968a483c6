/**
 The harness's reader of actions.jsonl: it seeks to its position, reads one line, and moves on only past a complete
 line. Whatever the polls see of the growing file, the batches it returns are those of the complete lines, in order.
 */
module ActionReader {
  import opened JsonLines
  import opened Options

  /** The line codec, as far as the reader depends on it: which lines are blank and which parse. */
  datatype Codec<!T> = Codec(blank: Line -> bool, parse: Line -> Option<T>)

  /** The records of a list of lines: blank and malformed lines are skipped. */
  function Records<T>(codec: Codec<T>, lines: seq<Line>): seq<T> {
    if lines == [] then [] else RecordsOf(codec, lines[0]) + Records(codec, lines[1..])
  }

  function RecordsOf<T>(codec: Codec<T>, line: Line): seq<T> {
    if codec.blank(line) || codec.parse(line).None? then [] else [codec.parse(line).value]
  }

  lemma {:induction false} RecordsAppend<T>(codec: Codec<T>, a: seq<Line>, b: seq<Line>)
    ensures Records(codec, a + b) == Records(codec, a) + Records(codec, b)
  {
    hide RecordsOf;
    if a == [] {
      assert a + b == b;
    } else {
      RecordsAppend(codec, a[1..], b);
      assert (a + b)[1..] == a[1..] + b;
    }
  }

  /** `cut(i)` bytes of the file are visible to poll `i`: the file only grows. */
  ghost predicate Growing(cut: nat -> nat, size: nat) {
    forall i: nat, j: nat :: i <= j ==> cut(i) <= cut(j) <= size
  }

  lemma OneLine(piece: seq<Byte>, i: nat)
    requires |piece| == i + 1 && piece[i] == NEWLINE && NEWLINE !in piece[..i]
    ensures Lines(piece) == [piece[..i]] && Partial(piece) == []
  {
    FirstNewlineIs(piece, i);
    assert piece[i + 1..] == [];
  }

  lemma AddOneLine(before: seq<Byte>, piece: seq<Byte>, i: nat)
    requires Partial(before) == []
    requires |piece| == i + 1 && piece[i] == NEWLINE && NEWLINE !in piece[..i]
    ensures Lines(before + piece) == Lines(before) + [piece[..i]]
    ensures Partial(before + piece) == []
  {
    hide Lines, Partial;
    LinesOfGrownFile(before, piece);
    assert [] + piece == piece;
    OneLine(piece, i);
  }

  lemma TakeOneLine(file: seq<Byte>, pos: nat, visible: nat)
    requires pos <= visible <= |file| && Partial(file[..pos]) == []
    requires NEWLINE in file[pos..visible]
    ensures
      var rest := file[pos..visible];
      var next := pos + FirstNewline(rest) + 1;
      && next <= visible
      && Lines(file[..next]) == Lines(file[..pos]) + [rest[..FirstNewline(rest)]]
      && Partial(file[..next]) == []
  {
    hide Lines, Partial, FirstNewline;
    var rest := file[pos..visible];
    var i := FirstNewline(rest);
    var next := pos + i + 1;
    var piece := rest[..i + 1];
    assert file[..next] == file[..pos] + piece;
    assert piece[..i] == rest[..i] && piece[i] == NEWLINE;
    AddOneLine(file[..pos], piece, i);
    assert Lines(file[..next]) == Lines(file[..pos]) + [rest[..i]];
  }

  class Reader<T> {
    const codec: Codec<T>
    var pos: nat
    ghost var returned: seq<T>

    /** The position is just after a complete line and everything before it has been returned. */
    ghost predicate Valid(file: seq<Byte>)
      reads this
    {
      && pos <= |file|
      && Partial(file[..pos]) == []
      && returned == Records(codec, Lines(file[..pos]))
    }

    constructor (codec: Codec<T>, ghost file: seq<Byte>)
      ensures Valid(file) && pos == 0 && returned == [] && this.codec == codec
    {
      this.codec, pos, returned := codec, 0, [];
    }

    /** Seek to the position and read one line of the visible file; a line without its newline is left alone. */
    method ReadLine(file: seq<Byte>, visible: nat) returns (line: Option<Line>)
      requires pos <= visible <= |file| && Partial(file[..pos]) == []
      modifies this`pos
      ensures old(pos) <= pos <= visible && Partial(file[..pos]) == []
      ensures line.None? ==> pos == old(pos) && NEWLINE !in file[pos..visible]
      ensures line.Some? ==> old(pos) < pos && Lines(file[..pos]) == Lines(file[..old(pos)]) + [line.value]
    {
      hide Lines, Partial, FirstNewline;
      var rest := file[pos..visible];
      if NEWLINE !in rest { return None; }
      TakeOneLine(file, pos, visible);
      var end := FirstNewline(rest);
      pos := pos + end + 1;
      return Some(rest[..end]);
    }

    /** `file` is all the writer ever appends; poll `i` sees its first `cut(i)` bytes; the timeout has passed from poll
        `deadline` on. Giving up means that, after the timeout, no complete line was left unread, or that the line just
        read was blank. */
    method NextBatch(file: seq<Byte>, cut: nat -> nat, deadline: nat) returns (batch: Option<T>)
      requires Valid(file) && Growing(cut, |file|) && pos <= cut(0)
      modifies this
      ensures Valid(file) && old(pos) <= pos
      ensures exists i: nat :: pos <= cut(i)
      ensures returned == old(returned) + (if batch.Some? then [batch.value] else [])
      ensures batch.None? ==> exists i: nat :: deadline <= i && GaveUp(file, cut(i))
    {
      var i := 0;
      while true
        invariant Valid(file) && old(pos) <= pos <= cut(i) <= |file| && returned == old(returned)
        decreases |file| - pos, if i < deadline then deadline - i else 0
      {
        ghost var from := pos;
        var line := ReadLine(file, cut(i));
        assert cut(i) <= cut(i + 1) <= |file|;
        if line.Some? {
          RecordsAppend(codec, Lines(file[..from]), [line.value]);
          assert Records(codec, [line.value]) == RecordsOf(codec, line.value);
          if !codec.blank(line.value) {
            match codec.parse(line.value) {
              case Some(value) =>
                returned := returned + [value];
                return Some(value);
              case None =>
                i := i + 1;
                continue;
            }
          }
        }
        if i >= deadline {
          assert GaveUp(file, cut(i));
          return None;
        }
        i := i + 1;
      }
    }

    ghost predicate GaveUp(file: seq<Byte>, visible: nat)
      reads this
    {
      && pos <= visible <= |file|
      && (|| NEWLINE !in file[pos..visible]
          || var lines := Lines(file[..pos]); lines != [] && codec.blank(lines[|lines| - 1]))
    }
  }

  // ----------------------------------------------------------------------------------------------- reader and writer

  /** What a writer leaves behind that appends one encoded record and a newline per submission. */
  function Written<T>(encode: T -> Line, records: seq<T>): seq<Byte> {
    if records == [] then [] else encode(records[0]) + [NEWLINE] + Written(encode, records[1..])
  }

  /** The writer's side of the codec: an encoded record is a non-blank line that parses back to itself. */
  ghost predicate RoundTrips<T>(codec: Codec<T>, encode: T -> Line, record: T) {
    && NEWLINE !in encode(record)
    && !codec.blank(encode(record))
    && codec.parse(encode(record)) == Some(record)
  }

  lemma NoLines(bytes: seq<Byte>)
    ensures NEWLINE !in bytes ==> Lines(bytes) == [] && Partial(bytes) == bytes
  {}

  lemma {:induction false} WrittenRecords<T>(codec: Codec<T>, encode: T -> Line, records: seq<T>)
    requires forall i :: 0 <= i < |records| ==> RoundTrips(codec, encode, records[i])
    ensures Records(codec, Lines(Written(encode, records))) == records
    ensures Partial(Written(encode, records)) == []
  {
    hide Lines, Partial, FirstNewline;
    if records == [] {
      NoLines([]);
    } else {
      WrittenRecords(codec, encode, records[1..]);
      assert RoundTrips(codec, encode, records[0]);
      FirstLineIs(encode(records[0]), Written(encode, records[1..]));
    }
  }

  lemma {:induction false} RecordsArePrefix<T>(codec: Codec<T>, bytes: seq<Byte>, more: seq<Byte>)
    ensures Records(codec, Lines(bytes)) <= Records(codec, Lines(bytes + more))
  {
    LinesOfGrownFile(bytes, more);
    RecordsAppend(codec, Lines(bytes), Lines(Partial(bytes) + more));
  }

  /** Exactly once, in order, down to the bytes: wherever the writer's bytes have been cut so far and wherever the
      reader has stopped, what the reader returned is a prefix of what was submitted, and a reader that has reached the
      end of the whole log has returned all of it. */
  lemma ReturnedArePrefixOfSubmitted<T>(codec: Codec<T>, encode: T -> Line, records: seq<T>, visible: nat, pos: nat)
    requires forall i :: 0 <= i < |records| ==> RoundTrips(codec, encode, records[i])
    requires pos <= visible <= |Written(encode, records)|
    ensures
      var file := Written(encode, records);
      && Records(codec, Lines(file[..pos])) <= Records(codec, Lines(file[..visible])) <= records
      && (pos == |file| ==> Records(codec, Lines(file[..pos])) == records)
  {
    var file := Written(encode, records);
    WrittenRecords(codec, encode, records);
    assert file[..visible] == file[..pos] + file[pos..visible];
    RecordsArePrefix(codec, file[..pos], file[pos..visible]);
    assert file == file[..visible] + file[visible..];
    RecordsArePrefix(codec, file[..visible], file[visible..]);
    assert pos == |file| ==> file[..pos] == file;
  }
}
