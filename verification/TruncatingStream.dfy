/**
 The output buffer with a hard character limit: the first `head_limit` characters verbatim and a rolling tail of the last
 `tail_limit` ones, kept as a queue of chunks. It refines "the head and the tail of everything written".
 */
module TruncatingStream {
  import opened Options

  function Min(a: int, b: int): int {
    if a < b then a else b
  }

  /** The last `n` characters. */
  function Last(s: string, n: nat): string {
    if |s| <= n then s else s[|s| - n..]
  }

  /** What is kept of a text: its head, and the end of the rest. */
  function HeadOf(text: string, headLimit: nat): string {
    text[..Min(|text|, headLimit)]
  }

  function TailOf(text: string, headLimit: nat, tailLimit: nat): string {
    Last(text[Min(|text|, headLimit)..], tailLimit)
  }

  function Concat(chunks: seq<string>): string {
    if chunks == [] then "" else chunks[0] + Concat(chunks[1..])
  }

  lemma {:induction false} ConcatAppend(chunks: seq<string>, chunk: string)
    ensures Concat(chunks + [chunk]) == Concat(chunks) + chunk
  {
    if chunks == [] {
      assert chunks + [chunk] == [chunk];
    } else {
      ConcatAppend(chunks[1..], chunk);
      assert (chunks + [chunk])[1..] == chunks[1..] + [chunk];
    }
  }

  /** A rolling tail forgets nothing it will need: the tail of a text extended is the tail of the old tail extended. */
  lemma LastOfExtended(text: string, more: string, n: nat)
    ensures Last(Last(text, n) + more, n) == Last(text + more, n)
  {
  }

  /** What `getvalue()` returns: the text itself, or the parts and counts of the truncation notice. */
  datatype Shown =
    | Verbatim(text: string)
    | Notice(head: string, tail: string, total: nat, headChars: nat, tailChars: nat, dropped: int)

  class TruncatingStringIO {
    const limit: nat
    const tailLimit: nat
    const headLimit: nat
    var head: string
    var headFull: bool
    var tailChunks: seq<string>
    var tailChars: nat
    var charsWritten: nat
    ghost var written: string

    ghost predicate Valid()
      reads this
    {
      && headLimit + tailLimit == limit
      && charsWritten == |written|
      && tailChars == |Concat(tailChunks)|
      && head == HeadOf(written, headLimit)
      && Concat(tailChunks) == TailOf(written, headLimit, tailLimit)
      && (headFull ==> |written| >= headLimit)
      && (!headFull ==> |written| <= headLimit)
    }

    /** `tail_chars` None is half of the limit. */
    constructor (limit: nat, tailChars: Option<nat>)
      requires tailChars.Some? ==> tailChars.value <= limit
      ensures Valid() && written == "" && this.limit == limit
      ensures this.tailLimit == if tailChars.Some? then tailChars.value else limit / 2
    {
      var tail := if tailChars.Some? then tailChars.value else limit / 2;
      this.limit, this.tailLimit, this.headLimit := limit, tail, limit - tail;
      head, headFull, tailChunks, this.tailChars, charsWritten, written := "", false, [], 0, 0, "";
    }

    /** After every write the buffer holds the head and the tail of everything written, at most `limit` characters. */
    method Write(s: string) returns (n: nat)
      requires Valid()
      modifies this
      ensures Valid() && written == old(written) + s && n == |s|
      ensures |head| + tailChars <= limit
    {
      hide HeadOf, TailOf, Last, Concat;
      HeadGrows(written, s);
      n := |s|;
      charsWritten := charsWritten + n;
      written := written + s;
      if !headFull {
        var remaining := headLimit - |head|;
        if n <= remaining {
          head := head + s;
          return;
        }
        head := head + s[..remaining];
        headFull := true;
        AddToTail(s[remaining..]);
      } else {
        RestOfExtended(old(written), s);
        AddToTail(s);
      }
    }

    /** What a write does to a head that is not full yet. */
    lemma HeadGrows(text: string, more: string)
      ensures |HeadOf(text, headLimit)| == Min(|text|, headLimit)
      ensures |Last(text, tailLimit)| <= tailLimit
      ensures |text| <= headLimit ==> HeadOf(text, headLimit) == text && TailOf(text, headLimit, tailLimit) == ""
      ensures |text| + |more| <= headLimit ==>
                && HeadOf(text + more, headLimit) == text + more
                && TailOf(text + more, headLimit, tailLimit) == ""
      ensures
        var remaining := headLimit - |text|;
        0 <= remaining <= |more| ==>
          && HeadOf(text + more, headLimit) == text + more[..remaining]
          && TailOf(text + more, headLimit, tailLimit) == Last("" + more[remaining..], tailLimit)
    {
      var all, remaining := text + more, headLimit - |text|;
      if 0 <= remaining <= |more| {
        assert all[headLimit..] == more[remaining..] && "" + more[remaining..] == more[remaining..];
        assert all[..headLimit] == text + more[..remaining];
      }
    }

    lemma RestOfExtended(text: string, more: string)
      requires |text| >= headLimit
      ensures HeadOf(text + more, headLimit) == HeadOf(text, headLimit)
      ensures TailOf(text + more, headLimit, tailLimit) == Last(TailOf(text, headLimit, tailLimit) + more, tailLimit)
    {
      assert (text + more)[headLimit..] == text[headLimit..] + more;
      LastOfExtended(text[headLimit..], more, tailLimit);
    }

    /** Append a chunk and evict the oldest characters. */
    method AddToTail(s: string)
      requires tailChars == |Concat(tailChunks)|
      modifies this`tailChunks, this`tailChars
      ensures tailChars == |Concat(tailChunks)| <= tailLimit
      ensures Concat(tailChunks) == Last(Concat(old(tailChunks)) + s, tailLimit)
    {
      ConcatAppend(tailChunks, s);
      tailChunks := tailChunks + [s];
      tailChars := tailChars + |s|;
      ghost var all := Concat(tailChunks);
      while tailChars > tailLimit && tailChunks != []
        invariant tailChars == |Concat(tailChunks)| <= |all|
        invariant Concat(tailChunks) == all[|all| - tailChars..]
        invariant |all| >= tailLimit ==> tailChars >= tailLimit
        invariant |all| < tailLimit ==> tailChars == |all|
        decreases |tailChunks|, tailChars
      {
        var oldest := tailChunks[0];
        var excess := tailChars - tailLimit;
        assert Concat(tailChunks) == oldest + Concat(tailChunks[1..]);
        if |oldest| <= excess {
          tailChunks := tailChunks[1..];
          tailChars := tailChars - |oldest|;
        } else {
          ghost var rest := tailChunks[1..];
          tailChunks := tailChunks[0 := oldest[excess..]];
          assert tailChunks[1..] == rest;
          tailChars := tailChars - excess;
        }
      }
    }

    predicate WasTruncated()
      reads this
    {
      charsWritten > limit
    }

    /** The whole text exactly when it fits the limit; otherwise the notice counts what is missing. */
    method GetValue() returns (shown: Shown)
      requires Valid()
      ensures shown.Verbatim? <==> |written| <= limit
      ensures shown.Verbatim? ==> shown.text == written
      ensures shown.Notice? ==>
                && shown.head == written[..headLimit] && shown.headChars == headLimit
                && shown.tail == written[|written| - tailLimit..] && shown.tailChars == tailLimit
                && shown.total == |written| && shown.dropped == |written| - limit
    {
      var tail := Join();
      if !WasTruncated() {
        assert written == written[..Min(|written|, headLimit)] + written[Min(|written|, headLimit)..];
        return Verbatim(head + tail);
      }
      return Notice(head, tail, charsWritten, |head|, |tail|, charsWritten - |head| - |tail|);
    }

    method Join() returns (tail: string)
      ensures tail == Concat(tailChunks)
    {
      tail := "";
      for i := 0 to |tailChunks|
        invariant tail == Concat(tailChunks[..i])
      {
        ConcatAppend(tailChunks[..i], tailChunks[i]);
        assert tailChunks[..i + 1] == tailChunks[..i] + [tailChunks[i]];
        tail := tail + tailChunks[i];
      }
      assert tailChunks[..|tailChunks|] == tailChunks;
    }
  }

  // ---------------------------------------------------------------------------------------------- chunking is invisible

  /** However a text is split into writes, the stream shows the same: it is a function of the text alone. */
  method WriteAll(stream: TruncatingStringIO, pieces: seq<string>)
    requires stream.Valid()
    modifies stream
    ensures stream.Valid() && stream.written == old(stream.written) + Concat(pieces)
  {
    hide HeadOf, TailOf;
    for i := 0 to |pieces|
      invariant stream.Valid() && stream.written == old(stream.written) + Concat(pieces[..i])
    {
      ConcatAppend(pieces[..i], pieces[i]);
      assert pieces[..i + 1] == pieces[..i] + [pieces[i]];
      var _ := stream.Write(pieces[i]);
    }
    assert pieces[..|pieces|] == pieces;
  }

  /** The stored head and tail never overlap and, together, are the text once nothing has been dropped. */
  lemma HeadAndTail(text: string, headLimit: nat, tailLimit: nat)
    ensures
      var head, tail := HeadOf(text, headLimit), TailOf(text, headLimit, tailLimit);
      && |head| + |tail| <= headLimit + tailLimit
      && |head| + |tail| <= |text|
      && (|text| <= headLimit + tailLimit <==> |head| + |tail| == |text|)
      && (|text| <= headLimit + tailLimit ==> head + tail == text)
      && head <= text
      && text[|text| - |tail|..] == tail
  {
    var cut := Min(|text|, headLimit);
    assert text == text[..cut] + text[cut..];
  }

  // ------------------------------------------------------------------------------------------------ the file-backed stream

  /** How a write to the file goes: an OSError may leave part of the text there, any other error (text that cannot be
      encoded) strikes before anything is written. */
  datatype FileWrite = Done | OsError(partial: string) | OtherError

  /** The same buffer, with every write also sent to a file until the file fails once. */
  class FileBackedStream {
    const stream: TruncatingStringIO
    var file: string
    var created: bool
    var fileFailed: bool
    var closed: bool

    ghost predicate Valid()
      reads this, stream
    {
      && stream.Valid()
      && (created && !fileFailed ==> file == stream.written)
      && (!created ==> fileFailed)
    }

    constructor (limit: nat, tailChars: Option<nat>, canCreate: bool)
      requires tailChars.Some? ==> tailChars.value <= limit
      ensures Valid() && fresh(stream) && stream.written == "" && stream.limit == limit
      ensures created == canCreate && fileFailed == !canCreate && !closed
    {
      stream := new TruncatingStringIO(limit, tailChars);
      file, created, fileFailed, closed := "", canCreate, !canCreate, false;
    }

    /** The write raises, and the buffer misses the text, if and only if a file that has not failed is closed or raises
        something other than OSError. An OSError never reaches the caller and never affects the buffer, and an unfailed
        file holds exactly what the buffer has been given. */
    method Write(s: string, outcome: FileWrite) returns (n: nat, raised: bool)
      requires Valid()
      modifies this, stream
      ensures Valid() && created == old(created) && closed == old(closed)
      ensures raised <==> !old(fileFailed) && (closed || outcome.OtherError?)
      ensures stream.written == if raised then old(stream.written) else old(stream.written) + s
      ensures raised ==> file == old(file)
      ensures fileFailed == (old(fileFailed) || (!closed && outcome.OsError?))
      ensures !raised ==> n == |s|
      ensures created && !fileFailed ==> file == stream.written
    {
      n, raised := 0, false;
      if created && !fileFailed {
        if closed {
          return 0, true;
        }
        match outcome {
          case OtherError =>
            return 0, true;
          case OsError(partial) =>
            file := file + partial;
            fileFailed := true;
          case Done =>
            file := file + s;
        }
      }
      n := stream.Write(s);
    }

    /** `close`: the file handle is closed, the buffer stays usable. */
    method Close()
      requires Valid()
      modifies this`closed
      ensures Valid() && closed == (old(closed) || created)
    {
      if created { closed := true; }
    }
  }
}
