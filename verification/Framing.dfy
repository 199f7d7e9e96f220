/** Lines out of chunks: the one specification all the readers are proved against.

    A source is the sequence of results its `read` calls give. `Pending` is what a reader that holds
    `buf` must still deliver, in order. */
module Framing {
  import opened Encoding

  const LF: Byte := 0x0A

  const MAX_LINE_BYTES: nat := 2 * 1024 * 1024

  /** The kinds of `std::io::Error` that the readers tell apart. */
  datatype ErrorKind = WouldBlock | TimedOut | Interrupted | Other(code: int)

  datatype Read = Chunk(bytes: seq<Byte>) | AtEof | Failed(kind: ErrorKind)

  datatype Error = Eof | LineTooLong | Io(kind: ErrorKind) | Closed | ReaderGone

  datatype Event = Line(bytes: seq<Byte>) | End(error: Error)

  /** What taking a line out of a buffer gives. */
  datatype Taken = Took(line: seq<Byte>, rest: seq<Byte>) | More | Overflow

  function IndexOfLf(b: seq<Byte>): (i: nat)
    ensures i <= |b| && (forall k :: 0 <= k < i ==> b[k] != LF) && (i < |b| ==> b[i] == LF)
  {
    if b == [] || b[0] == LF then 0 else 1 + IndexOfLf(b[1..])
  }

  function Take(buf: seq<Byte>): (t: Taken)
    ensures t.Took? ==> |t.rest| < |buf|
    ensures t.More? ==> |buf| <= MAX_LINE_BYTES
  {
    var i := IndexOfLf(buf);
    if i < |buf| then Took(buf[..i], buf[i + 1..])
    else if |buf| > MAX_LINE_BYTES then Overflow
    else More
  }

  /** The events still to come from the buffer and then from the input. It stops at the end of the
      input: then the reader is still waiting. */
  function Pending(buf: seq<Byte>, input: seq<Read>): seq<Event>
    decreases |input|, |buf|
  {
    match Take(buf)
    case Took(line, rest) => [Line(line)] + Pending(rest, input)
    case Overflow => [End(LineTooLong)]
    case More =>
      if input == [] then []
      else match input[0]
        case Chunk(c) => Pending(buf + c, input[1..])
        case AtEof => [End(Eof)]
        case Failed(kind) => [End(Io(kind))]
  }

  //
  // Splitting at line feeds
  //

  function Lines(b: seq<Byte>): seq<seq<Byte>>
    decreases |b|
  {
    var i := IndexOfLf(b);
    if i < |b| then [b[..i]] + Lines(b[i + 1..]) else []
  }

  function Rest(b: seq<Byte>): (r: seq<Byte>)
    ensures |r| <= |b|
    decreases |b|
  {
    var i := IndexOfLf(b);
    if i < |b| then Rest(b[i + 1..]) else b
  }

  function Join(lines: seq<seq<Byte>>): seq<Byte> {
    if lines == [] then [] else lines[0] + [LF] + Join(lines[1..])
  }

  function LineEvents(lines: seq<seq<Byte>>): (es: seq<Event>)
    ensures |es| == |lines| && forall k :: 0 <= k < |es| ==> es[k] == Line(lines[k])
  {
    if lines == [] then [] else [Line(lines[0])] + LineEvents(lines[1..])
  }

  ghost predicate NoLf(lines: seq<seq<Byte>>) { forall k :: 0 <= k < |lines| ==> LF !in lines[k] }

  lemma IndexUnique(b: seq<Byte>, i: nat)
    requires i < |b| && b[i] == LF && forall k :: 0 <= k < i ==> b[k] != LF
    ensures IndexOfLf(b) == i
  {
    assert !(IndexOfLf(b) < i) && !(i < IndexOfLf(b));
  }

  lemma NoneIndex(b: seq<Byte>)
    requires LF !in b
    ensures IndexOfLf(b) == |b|
  {
    assert forall k :: 0 <= k < |b| ==> b[k] in b;
  }

  lemma CutAt(b: seq<Byte>, i: nat)
    requires i < |b| && b[i] == LF && forall k :: 0 <= k < i ==> b[k] != LF
    ensures b == b[..i] + [LF] + b[i + 1..] && LF !in b[..i]
  {
  }

  /** Lines, each followed by its line feed, and then the rest, are the bytes; no line has a line feed. */
  lemma {:induction false} SplitJoins(b: seq<Byte>)
    ensures Join(Lines(b)) + Rest(b) == b && NoLf(Lines(b)) && LF !in Rest(b)
    decreases |b|
  {
    hide IndexOfLf, Join, NoLf;
    var i := IndexOfLf(b);
    if i < |b| {
      var line, t := b[..i], b[i + 1..];
      SplitJoins(t);
      CutAt(b, i);
      Cons(line, Lines(t));
      assert Lines(b) == [line] + Lines(t) && Rest(b) == Rest(t);
      assert line + [LF] + Join(Lines(t)) + Rest(t) == line + [LF] + (Join(Lines(t)) + Rest(t));
    } else {
      NoLines();
    }
  }

  lemma NoLines()
    ensures Join([]) == [] && NoLf([]) && LineEvents([]) == []
  {
  }

  lemma Cons(line: seq<Byte>, lines: seq<seq<Byte>>)
    ensures Join([line] + lines) == line + [LF] + Join(lines)
    ensures LineEvents([line] + lines) == [Line(line)] + LineEvents(lines)
    ensures LF !in line && NoLf(lines) ==> NoLf([line] + lines)
  {
    assert ([line] + lines)[1..] == lines;
  }

  /** And it is the only way to cut the bytes like that. */
  lemma {:induction false} SplitUnique(lines: seq<seq<Byte>>, rest: seq<Byte>)
    requires NoLf(lines) && LF !in rest
    ensures Lines(Join(lines) + rest) == lines && Rest(Join(lines) + rest) == rest
  {
    hide IndexOfLf;
    var b := Join(lines) + rest;
    if lines == [] {
      assert b == rest;
      NoneIndex(b);
    } else {
      SplitUnique(lines[1..], rest);
      var i := |lines[0]|;
      assert b == lines[0] + [LF] + (Join(lines[1..]) + rest);
      assert b[..i] == lines[0] && b[i + 1..] == Join(lines[1..]) + rest;
      IndexUnique(b, i);
    }
  }

  lemma {:induction false} JoinCat(a: seq<seq<Byte>>, b: seq<seq<Byte>>)
    ensures Join(a + b) == Join(a) + Join(b)
  {
    if a == [] {
      assert a + b == b;
    } else {
      assert (a + b)[0] == a[0] && (a + b)[1..] == a[1..] + b;
      JoinCat(a[1..], b);
    }
  }

  lemma LineEventsCat(a: seq<seq<Byte>>, b: seq<seq<Byte>>)
    ensures LineEvents(a + b) == LineEvents(a) + LineEvents(b)
  {
  }

  /** Splitting can be interrupted anywhere and resumed with the rest. */
  lemma SplitResumes(a: seq<Byte>, b: seq<Byte>)
    ensures Lines(a + b) == Lines(a) + Lines(Rest(a) + b) && Rest(a + b) == Rest(Rest(a) + b)
  {
    hide Lines, Rest, Join, IndexOfLf;
    var c := Rest(a) + b;
    SplitJoins(a);
    SplitJoins(c);
    JoinCat(Lines(a), Lines(c));
    assert a + b == Join(Lines(a)) + c;
    assert Join(Lines(a)) + (Join(Lines(c)) + Rest(c)) == Join(Lines(a) + Lines(c)) + Rest(c);
    SplitUnique(Lines(a) + Lines(c), Rest(c));
  }

  //
  // The events of a chunk sequence
  //

  function Flatten(chunks: seq<seq<Byte>>): seq<Byte> {
    if chunks == [] then [] else chunks[0] + Flatten(chunks[1..])
  }

  function ChunkReads(chunks: seq<seq<Byte>>): seq<Read> {
    if chunks == [] then [] else [Chunk(chunks[0])] + ChunkReads(chunks[1..])
  }

  /** No line of the bytes, finished or not, is over the cap. */
  ghost predicate Fits(b: seq<Byte>) {
    (forall k :: 0 <= k < |Lines(b)| ==> |Lines(b)[k]| <= MAX_LINE_BYTES) && |Rest(b)| <= MAX_LINE_BYTES
  }

  /** A buffer gives its lines, and then what its rest gives. */
  lemma {:induction false} PendingLines(buf: seq<Byte>, input: seq<Read>)
    ensures Pending(buf, input) == LineEvents(Lines(buf)) + Pending(Rest(buf), input)
    decreases |buf|
  {
    hide IndexOfLf, LineEvents, Pending;
    PendingStep(buf, input);
    var i := IndexOfLf(buf);
    if i < |buf| {
      var t := buf[i + 1..];
      PendingLines(t, input);
      Cons(buf[..i], Lines(t));
    } else {
      NoLines();
      assert [] + Pending(buf, input) == Pending(buf, input);
    }
  }

  lemma TakeRest(b: seq<Byte>)
    requires LF !in b
    ensures Take(b) == if |b| > MAX_LINE_BYTES then Overflow else More
  {
    NoneIndex(b);
  }

  /** If every line fits the cap, the chunks may be cut anywhere: the events depend on the bytes only. */
  lemma {:induction false} ChunksFit(buf: seq<Byte>, chunks: seq<seq<Byte>>, tail: seq<Read>)
    requires Fits(buf + Flatten(chunks))
    ensures var b := buf + Flatten(chunks);
            Pending(buf, ChunkReads(chunks) + tail) == LineEvents(Lines(b)) + Pending(Rest(b), tail)
    decreases |chunks|
  {
    hide Lines, Rest, Fits, IndexOfLf, LineEvents;
    var input := ChunkReads(chunks) + tail;
    PendingLines(buf, input);
    if chunks == [] {
      assert buf + Flatten(chunks) == buf && input == tail;
    } else {
      var rest := Rest(buf);
      var next := rest + chunks[0];
      FitsResumes(buf, Flatten(chunks));
      SplitResumes(buf, Flatten(chunks));
      assert rest + Flatten(chunks) == next + Flatten(chunks[1..]);
      LineEventsCat(Lines(buf), Lines(rest + Flatten(chunks)));
      assert input[0] == Chunk(chunks[0]) && input[1..] == ChunkReads(chunks[1..]) + tail;
      ChunksFit(next, chunks[1..], tail);
    }
  }

  /** What fits as a whole fits after its first lines are gone, and its unfinished line fits so far. */
  lemma FitsResumes(a: seq<Byte>, b: seq<Byte>)
    requires Fits(a + b)
    ensures Fits(Rest(a) + b) && Take(Rest(a)) == More
  {
    hide Lines, Rest, Take, Join;
    SplitJoins(a);
    SplitResumes(a, b);
    var c := Rest(a) + b;
    LaterFits(Lines(a), Lines(c));
    RestFits(Rest(a), b);
    TakeRest(Rest(a));
  }

  lemma LaterFits(before: seq<seq<Byte>>, lines: seq<seq<Byte>>)
    requires forall k :: 0 <= k < |before + lines| ==> |(before + lines)[k]| <= MAX_LINE_BYTES
    ensures forall k :: 0 <= k < |lines| ==> |lines[k]| <= MAX_LINE_BYTES
  {
    assert forall k :: 0 <= k < |lines| ==> lines[k] == (before + lines)[|before| + k];
  }

  /** An unfinished line is no longer than the line it becomes. */
  lemma RestFits(rest: seq<Byte>, more: seq<Byte>)
    requires LF !in rest
    ensures var b := rest + more;
            |rest| <= if Lines(b) != [] then |Lines(b)[0]| else |Rest(b)|
  {
    var b := rest + more;
    assert forall k :: 0 <= k < |rest| ==> rest[k] in rest && b[k] == rest[k];
  }

  /** Exactly when every line fits: that is when no chunking changes what is delivered. */
  lemma ChunkingIff(b: seq<Byte>)
    ensures Fits(b) <==>
              forall chunks :: Flatten(chunks) == b ==> Pending([], ChunkReads(chunks)) == LineEvents(Lines(b))
  {
    if Fits(b) {
      forall chunks | Flatten(chunks) == b
        ensures Pending([], ChunkReads(chunks)) == LineEvents(Lines(b))
      {
        assert [] + Flatten(chunks) == b && ChunkReads(chunks) + [] == ChunkReads(chunks);
        ChunksFit([], chunks, []);
        SplitJoins(b);
        TakeRest(Rest(b));
      }
    } else {
      var chunks := Breaking(b);
      assert Flatten(chunks) == b && Pending([], ChunkReads(chunks)) != LineEvents(Lines(b));
    }
  }

  /** A chunking that ends in the middle of a line over the cap, where the reader gives up. */
  lemma Breaking(b: seq<Byte>) returns (chunks: seq<seq<Byte>>)
    requires !Fits(b)
    ensures Flatten(chunks) == b && Pending([], ChunkReads(chunks)) != LineEvents(Lines(b))
  {
    hide Lines, Rest, IndexOfLf;
    var a: seq<Byte>, c: seq<Byte>;
    if |Rest(b)| > MAX_LINE_BYTES {
      a, c := b, [];
    } else {
      var k :| 0 <= k < |Lines(b)| && |Lines(b)[k]| > MAX_LINE_BYTES;
      a, c := CutInLine(b, k);
    }
    chunks := [a, c];
    TwoChunks(a, c);
    assert a + c == b;
    var es := LineEvents(Lines(a)) + [End(LineTooLong)];
    assert es[|es| - 1] == End(LineTooLong);
  }

  lemma TwoChunks(a: seq<Byte>, c: seq<Byte>)
    ensures Flatten([a, c]) == a + c && ChunkReads([a, c]) == [Chunk(a), Chunk(c)]
    ensures |Rest(a)| > MAX_LINE_BYTES ==>
              Pending([], ChunkReads([a, c])) == LineEvents(Lines(a)) + [End(LineTooLong)]
  {
    hide Lines, Rest, LineEvents;
    assert [a, c][1..] == [c] && [c][1..] == [];
    assert Flatten([c]) == c + [] == c && ChunkReads([c]) == [Chunk(c)] + [] == [Chunk(c)];
    assert [] + a == a;
    assert ChunkReads([a, c]) == [Chunk(a)] + [Chunk(c)];
    assert Pending([], ChunkReads([a, c])) == Pending(a, [Chunk(c)]);
    PendingLines(a, [Chunk(c)]);
    SplitJoins(a);
    TakeRest(Rest(a));
  }

  lemma {:induction false} CutInLine(b: seq<Byte>, k: nat) returns (a: seq<Byte>, c: seq<Byte>)
    requires k < |Lines(b)|
    ensures a + c == b && Rest(a) == Lines(b)[k]
    decreases k
  {
    hide IndexOfLf;
    var i := IndexOfLf(b);
    CutAt(b, i);
    if k == 0 {
      a, c := b[..i], b[i..];
      NoneIndex(a);
    } else {
      var a', c' := CutInLine(b[i + 1..], k - 1);
      a, c := b[..i + 1] + a', c';
      IndexUnique(a, i);
      assert a[i + 1..] == a';
      assert a + c == b[..i + 1] + (a' + c') == b;
    }
  }

  /** One line over the cap: accepted when its line feed is in the chunk that crosses the cap,
      rejected when the chunk ends before it. */
  lemma OverlongLine(line: seq<Byte>)
    requires LF !in line && |line| > MAX_LINE_BYTES
    ensures Pending([], [Chunk(line + [LF])]) == [Line(line)]
    ensures Pending([], [Chunk(line), Chunk([LF])]) == [End(LineTooLong)]
  {
    hide IndexOfLf, Pending;
    var b := line + [LF];
    assert forall k :: 0 <= k < |line| ==> line[k] in line;
    IndexUnique(b, |line|);
    NoneIndex(line);
    NoneIndex([]);
    assert b[..|line|] == line && b[|line| + 1..] == [];
    assert [Chunk(b)][1..] == [] && [Chunk(line), Chunk([LF])][1..] == [Chunk([LF])];
    assert [] + b == b && [] + line == line;
    PendingStep([], [Chunk(b)]);
    PendingStep(b, []);
    PendingStep([], []);
    PendingStep([], [Chunk(line), Chunk([LF])]);
    PendingStep(line, [Chunk([LF])]);
  }

  /** What ends a line, and how long a line may be. */
  lemma LineFeedAndCap(c: Byte, b: seq<Byte>)
    requires '\n' as int !in b
    ensures Pending([], [Chunk([c])]) == [Line([])] <==> c == '\n' as int
    ensures Pending([], [Chunk(b)]) == if |b| > 2097152 then [End(LineTooLong)] else []
  {
    hide Pending;
    assert [Chunk([c])][1..] == [] && [Chunk(b)][1..] == [] && [] + [c] == [c] && [] + b == b;
    TakeRest([]);
    TakeRest(b);
    PendingStep([], [Chunk([c])]);
    PendingStep([], [Chunk(b)]);
    PendingStep(b, []);
    PendingStep([c], []);
    PendingStep([], []);
    if c == '\n' as int {
      IndexUnique([c], 0);
      assert [c][..0] == [] && [c][1..] == [];
    } else {
      TakeRest([c]);
    }
  }

  lemma PendingStep(buf: seq<Byte>, input: seq<Read>)
    ensures var t := Take(buf);
            && (t.Took? ==> Pending(buf, input) == [Line(t.line)] + Pending(t.rest, input))
            && (t.Overflow? ==> Pending(buf, input) == [End(LineTooLong)])
            && (t.More? && input == [] ==> Pending(buf, input) == [])
            && (t.More? && input != [] && input[0].Chunk? ==>
                  Pending(buf, input) == Pending(buf + input[0].bytes, input[1..]))
  {
  }

  /** The buffer after all of the input; none when an end came. */
  function Left(buf: seq<Byte>, input: seq<Read>): Option<seq<Byte>>
    decreases |input|, |buf|
  {
    match Take(buf)
    case Took(line, rest) => Left(rest, input)
    case Overflow => None
    case More =>
      if input == [] then Some(buf)
      else match input[0]
        case Chunk(c) => Left(buf + c, input[1..])
        case _ => None
  }

  /** Input can be taken in parts: the events of the first part, and then those of the second from
      the buffer the first leaves behind; after an end, nothing more. */
  lemma {:induction false} PendingResumes(buf: seq<Byte>, input: seq<Read>, tail: seq<Read>)
    ensures match Left(buf, input)
            case Some(b) =>
              && Pending(buf, input + tail) == Pending(buf, input) + Pending(b, tail)
              && Left(buf, input + tail) == Left(b, tail)
            case None => Pending(buf, input + tail) == Pending(buf, input) && Left(buf, input + tail) == None
    decreases |input|, |buf|
  {
    hide Take;
    match Take(buf)
    case Took(line, rest) => PendingResumes(rest, input, tail);
    case Overflow =>
    case More =>
      if input == [] {
        assert input + tail == tail;
      } else {
        assert (input + tail)[0] == input[0] && (input + tail)[1..] == input[1..] + tail;
        if input[0].Chunk? {
          PendingResumes(buf + input[0].bytes, input[1..], tail);
        }
      }
  }

  lemma {:induction false} LeftLines(buf: seq<Byte>, input: seq<Read>)
    ensures Left(buf, input) == Left(Rest(buf), input)
    decreases |buf|
  {
    hide IndexOfLf;
    var i := IndexOfLf(buf);
    if i < |buf| {
      LeftLines(buf[i + 1..], input);
    }
  }

  /** A terminal event is the last one. */
  lemma {:induction false} EndIsLast(buf: seq<Byte>, input: seq<Read>, k: nat)
    requires k < |Pending(buf, input)| && Pending(buf, input)[k].End?
    ensures k == |Pending(buf, input)| - 1
    decreases |input|, |buf|
  {
    match Take(buf)
    case Took(line, rest) => EndIsLast(rest, input, k - 1);
    case Overflow =>
    case More =>
      if input[0].Chunk? {
        EndIsLast(buf + input[0].bytes, input[1..], k);
      }
  }
}
