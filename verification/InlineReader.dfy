/** `SocketTransport::read_line` of rust/src/transport/socket.rs: a reader without a thread, that
    retries reads which were cut short and checks its own deadline. */
module InlineReader {
  import opened Encoding
  import opened Framing
  import opened Outcomes
  import Threaded = ThreadedReader
  import F = LineFramer

  const READ_BYTES: nat := 64 * 1024

  /** What one `read` of the stream gives, and the clock just after it. */
  datatype Arrival = Arrival(read: Read, now: nat)

  /** What a call gives; `Blocks` when the stream has nothing more and the call does not return. */
  datatype CallResult = Returned(outcome: Outcome) | Blocks

  predicate Polled(r: Read) { r.Failed? && (r.kind.WouldBlock? || r.kind.TimedOut?) }

  predicate Transient(r: Read) { Polled(r) || (r.Failed? && r.kind.Interrupted?) }

  /** The reads that are not retried. */
  function Retried(input: seq<Read>): seq<Read> {
    if input == [] then []
    else if Transient(input[0]) then Retried(input[1..])
    else [input[0]] + Retried(input[1..])
  }

  function ReadsOf(stream: seq<Arrival>): (rs: seq<Read>)
    ensures |rs| == |stream| && forall k :: 0 <= k < |rs| ==> rs[k] == stream[k].read
  {
    if stream == [] then [] else [stream[0].read] + ReadsOf(stream[1..])
  }

  /** What the events are when cut-short reads are retried. */
  function Coming(buf: seq<Byte>, stream: seq<Arrival>): seq<Event> { Pending(buf, Retried(ReadsOf(stream))) }

  lemma ComingStep(buf: seq<Byte>, stream: seq<Arrival>)
    requires stream != [] && Take(buf) == More
    ensures var r := stream[0].read;
            && (Transient(r) ==> Coming(buf, stream) == Coming(buf, stream[1..]))
            && (r.Chunk? ==> Coming(buf, stream) == Coming(buf + r.bytes, stream[1..]))
            && (r.AtEof? ==> Coming(buf, stream) == [End(Eof)])
            && (r.Failed? && !Transient(r) ==> Coming(buf, stream) == [End(Io(r.kind))])
  {
    hide Pending, Take;
    assert ReadsOf(stream)[1..] == ReadsOf(stream[1..]);
    var input := Retried(ReadsOf(stream));
    if !Transient(stream[0].read) {
      assert input[0] == stream[0].read && input[1..] == Retried(ReadsOf(stream[1..]));
      Threaded.PendingSplit(buf, input);
    }
  }

  class SocketTransport {
    const framer: F.LineFramer
    var terminal: Option<Error>
    var stream: seq<Arrival>    // what the reads will give

    ghost predicate Valid() reads this, framer {
      && framer.Valid() && |framer.buf| <= MAX_LINE_BYTES + READ_BYTES
      && forall k :: 0 <= k < |stream| && stream[k].read.Chunk? ==> |stream[k].read.bytes| <= READ_BYTES
    }

    /** The events still to come, and the memo. */
    ghost function Seen(): View reads this, framer {
      View(if terminal.Some? then [] else Coming(framer.buf, stream), terminal)
    }

    constructor (stream: seq<Arrival>)
      requires forall k :: 0 <= k < |stream| && stream[k].read.Chunk? ==> |stream[k].read.bytes| <= 65536
      ensures Valid() && fresh(framer) && this.stream == stream
      ensures Seen() == View(Pending([], Retried(ReadsOf(stream))), None)
    {
      framer := new F.LineFramer();
      terminal, this.stream := None, stream;
    }

    /** `take_or_terminal`. */
    method TakeOrTerminal() returns (r: Option<Event>)
      requires Valid() && terminal.None?
      modifies this, framer
      ensures Valid() && stream == old(stream)
      ensures r.None? ==> Seen() == old(Seen()) && Take(framer.buf) == More && terminal.None?
      ensures r.None? ==> framer.buf == old(framer.buf)
      ensures r.Some? ==> Delivers(old(Seen()), Got(r.value), Seen())
    {
      hide Take, Transient;
      PendingStep(framer.buf, Retried(ReadsOf(stream)));
      ghost var was := framer.buf;
      var t := framer.TakeLine();
      match t
      case Took(line, rest) =>
        assert |rest| < |was|;
        r := Some(Line(line));
      case More => r := None;
      case Overflow =>
        terminal := Some(LineTooLong);
        r := Some(End(LineTooLong));
    }

    /** `read_line`, called when the clock is at `start`. It delivers the next event, or it times out
        and changes nothing; it only times out after the deadline, never with a whole line in its
        buffer, and apart from interrupted reads it never reads again once it saw the deadline pass. */
    method ReadLine(timeout: Option<nat>, start: nat) returns (r: CallResult)
      requires Valid()
      modifies this, framer
      ensures Valid()
      ensures r.Returned? ==> Delivers(old(Seen()), r.outcome, Seen())
      ensures r.Blocks? ==> Seen() == old(Seen()) && Seen().coming == [] && stream == [] && terminal.None?
      ensures old(terminal).Some? || Take(old(framer.buf)) != More ==> stream == old(stream)
      ensures var used := |old(stream)| - |stream|;
              && 0 <= used && stream == old(stream)[used..]
              && (timeout.Some? ==>
                    forall k :: 0 <= k < used - 1 ==>
                      old(stream)[k].now < start + timeout.value || old(stream)[k].read == Failed(Interrupted))
              && (r == Returned(TimeoutError) ==>
                    && timeout.Some? && 0 < used && Take(framer.buf) == More
                    && old(stream)[used - 1].now >= start + timeout.value
                    && (|| old(stream)[used - 1].read.Chunk? || old(stream)[used - 1].read == Failed(WouldBlock)
                        || old(stream)[used - 1].read == Failed(TimedOut)))
    {
      hide Take, Pending, Coming, Retried, ReadsOf, Join, NoLf, IndexOfLf;
      if terminal.Some? {
        return Returned(Got(End(terminal.value)));
      }
      var first := TakeOrTerminal();
      if first.Some? {
        return Returned(Got(first.value));
      }
      ghost var used := 0;
      while true
        invariant Valid() && terminal.None? && Take(framer.buf) == More && Seen() == old(Seen())
        invariant 0 <= used <= |old(stream)| && stream == old(stream)[used..]
        invariant timeout.Some? ==>
                    forall k :: 0 <= k < used ==>
                      old(stream)[k].now < start + timeout.value || old(stream)[k].read == Failed(Interrupted)
        decreases |stream|
      {
        if stream == [] {
          NothingComes(framer.buf);
          return Blocks;
        }
        ComingStep(framer.buf, stream);
        var next := stream[0];
        stream := stream[1..];
        used := used + 1;
        var late := timeout.Some? && next.now >= start + timeout.value;
        match next.read
        case AtEof =>
          terminal := Some(Eof);
          return Returned(Got(End(Eof)));
        case Chunk(bytes) =>
          MoreFits(framer.buf);
          framer.Push(bytes);
          var line := TakeOrTerminal();
          if line.Some? {
            return Returned(Got(line.value));
          }
          if late {
            return Returned(TimeoutError);
          }
        case Failed(kind) =>
          if kind.WouldBlock? || kind.TimedOut? {
            if late {
              return Returned(TimeoutError);
            }
          } else if !kind.Interrupted? {
            terminal := Some(Io(kind));
            return Returned(Got(End(Io(kind))));
          }
      }
    }

    /** `close`: from now on every read says so. */
    method Close()
      requires Valid()
      modifies this`terminal
      ensures Valid() && Seen() == View([], Some(Closed))
    {
      terminal := Some(Closed);
    }
  }

  lemma NothingComes(buf: seq<Byte>)
    requires Take(buf) == More
    ensures Coming(buf, []) == []
  {
  }

  lemma MoreFits(buf: seq<Byte>)
    requires Take(buf) == More
    ensures |buf| <= MAX_LINE_BYTES
  {
  }

  /** Any number of calls, each with its own time limit and its own starting time. */
  method ReadAll(t: SocketTransport, calls: seq<(Option<nat>, nat)>) returns (outcomes: seq<Outcome>, blocked: bool)
    requires t.Valid()
    modifies t, t.framer
    ensures t.Valid() && Reads(old(t.Seen()), outcomes, t.Seen())
    ensures if blocked then t.Seen().coming == [] && t.terminal.None? else |outcomes| == |calls|
  {
    hide Delivers;
    outcomes, blocked := [], false;
    for i := 0 to |calls|
      invariant t.Valid() && Reads(old(t.Seen()), outcomes, t.Seen()) && |outcomes| == i
    {
      ghost var before := t.Seen();
      var r := t.ReadLine(calls[i].0, calls[i].1);
      if r.Blocks? {
        blocked := true;
        return;
      }
      ReadsPush(old(t.Seen()), outcomes, before, r.outcome, t.Seen());
      outcomes := outcomes + [r.outcome];
    }
  }

  //
  // The threaded and the inline reader
  //

  /** A source whose cut-short reads only come after its end: whatever the thread's interleaving, the
      callers' time limits and the cut-short reads that the inline reader meets on the way, the two readers report the same lines and then the same terminal error. */
  lemma ReadersAgree(input: seq<Read>, steps: seq<Threaded.Step>, stream: seq<Arrival>, outcomes: seq<Outcome>, w: View)
    requires Retried(ReadsOf(stream)) == Retried(input) && NoCut([], input)
    requires Reads(View(Pending([], Retried(ReadsOf(stream))), None), outcomes, w)
    ensures var a := Events(Threaded.Run(Threaded.Init(input), steps).outcomes);
            var b := Events(outcomes);
            && Reports(Pending([], input), a) && Reports(Pending([], input), b)
            && forall k :: 0 <= k < |a| && k < |b| ==> a[k] == b[k]
  {
    hide Pending, Events, Reports, Retried;
    var all := Pending([], input);
    Threaded.RunReports(input, steps);
    RetriedIff([], input);
    forall k | 0 <= k < |all| && all[k].End? ensures k == |all| - 1 {
      EndIsLast([], input, k);
    }
    ReadsReport(View(all, None), outcomes, w);
    ReportsAgree(all, Events(Threaded.Run(Threaded.Init(input), steps).outcomes), Events(outcomes));
  }

  /** No read is cut short before the end: an end of file, another error, or a line over the cap. */
  ghost predicate NoCut(buf: seq<Byte>, input: seq<Read>) {
    forall k :: 0 <= k < |input| && Transient(input[k]) ==> Left(buf, input[..k]).None?
  }

  /** The last event is not a cut-short read. */
  predicate EndsWell(es: seq<Event>) { es == [] || Fatal(es[|es| - 1]) }

  predicate Fatal(e: Event) { !(e.End? && e.error.Io? && Transient(Failed(e.error.kind))) }

  lemma {:induction false} RetriedFatal(buf: seq<Byte>, input: seq<Read>)
    ensures EndsWell(Pending(buf, Retried(input)))
    decreases |input|, |buf|
  {
    hide Take, Retried;
    RetriedStep(input);
    Threaded.PendingSplit(buf, Retried(input));
    match Take(buf)
    case Took(line, rest) => RetriedFatal(rest, input);
    case Overflow =>
    case More =>
      if input != [] {
        if Transient(input[0]) {
          RetriedFatal(buf, input[1..]);
        } else if input[0].Chunk? {
          RetriedFatal(buf + input[0].bytes, input[1..]);
        }
      }
  }

  lemma RetriedStep(input: seq<Read>)
    ensures input == [] ==> Retried(input) == []
    ensures input != [] && Transient(input[0]) ==> Retried(input) == Retried(input[1..])
    ensures input != [] && !Transient(input[0]) ==>
              Retried(input) == [input[0]] + Retried(input[1..]) && Retried(input)[1..] == Retried(input[1..])
  {
  }

  lemma LeftStep(buf: seq<Byte>, input: seq<Read>)
    ensures var t := Take(buf);
            && (t.Took? ==> Left(buf, input) == Left(t.rest, input))
            && (t.Overflow? ==> Left(buf, input) == None)
            && (t.More? && input == [] ==> Left(buf, input) == Some(buf))
            && (t.More? && input != [] ==>
                  Left(buf, input) == if input[0].Chunk? then Left(buf + input[0].bytes, input[1..]) else None)
  {
  }

  /** How the condition on the reads goes from one step of the reader to the next. */
  lemma CutStep(buf: seq<Byte>, input: seq<Read>)
    ensures var t := Take(buf);
            && (t.Took? ==> (NoCut(buf, input) <==> NoCut(t.rest, input)))
            && (t.Overflow? || (t.More? && input == []) ==> NoCut(buf, input))
            && (t.More? && input != [] ==>
                  && (Transient(input[0]) ==> !NoCut(buf, input))
                  && (!Transient(input[0]) && !input[0].Chunk? ==> NoCut(buf, input))
                  && (input[0].Chunk? ==> (NoCut(buf, input) <==> NoCut(buf + input[0].bytes, input[1..]))))
  {
    hide Take, Left;
    var t := Take(buf);
    forall k | 0 <= k < |input|
      ensures t.Took? ==> Left(buf, input[..k]) == Left(t.rest, input[..k])
      ensures t.Overflow? ==> Left(buf, input[..k]) == None
      ensures t.More? ==>
                Left(buf, input[..k]) == if k == 0 then Some(buf)
                                         else if input[0].Chunk? then Left(buf + input[0].bytes, input[1..][..k - 1])
                                         else None
    {
      LeftStep(buf, input[..k]);
      if k > 0 {
        assert input[..k][1..] == input[1..][..k - 1] && input[..k][0] == input[0];
      }
    }
    if t.More? && input != [] {
      assert Left(buf, input[..0]).Some?;
      if input[0].Chunk? {
        CutShift(buf, input);
      }
    }
  }

  lemma CutShift(buf: seq<Byte>, input: seq<Read>)
    requires input != [] && input[0].Chunk?
    requires forall k :: 0 < k < |input| ==>
               Left(buf, input[..k]) == Left(buf + input[0].bytes, input[1..][..k - 1])
    ensures NoCut(buf, input) <==> NoCut(buf + input[0].bytes, input[1..])
  {
    hide Left;
    var next, rest := buf + input[0].bytes, input[1..];
    if NoCut(buf, input) {
      forall k | 0 <= k < |rest| && Transient(rest[k]) ensures Left(next, rest[..k]).None? {
        assert rest[k] == input[k + 1] && Left(buf, input[..k + 1]) == Left(next, rest[..k + 1 - 1]);
      }
    }
    if NoCut(next, rest) {
      forall k | 0 <= k < |input| && Transient(input[k]) ensures Left(buf, input[..k]).None? {
        assert rest[k - 1] == input[k];
      }
    }
  }

  /** The threaded reader ends with a cut-short read exactly when one comes before the end. */
  lemma {:induction false} EndsWellIff(buf: seq<Byte>, input: seq<Read>)
    ensures EndsWell(Pending(buf, input)) <==> NoCut(buf, input)
    decreases |input|, |buf|
  {
    hide Take, Left, Pending, NoCut;
    CutStep(buf, input);
    Threaded.PendingSplit(buf, input);
    PendingStep(buf, input);
    match Take(buf)
    case Took(line, rest) =>
      EndsWellIff(rest, input);
      SameTail(Line(line), Pending(rest, input), []);
    case Overflow =>
    case More =>
      if input != [] && input[0].Chunk? {
        EndsWellIff(buf + input[0].bytes, input[1..]);
      }
  }

  /** Retrying changes nothing exactly when no read is cut short before the end. */
  lemma {:induction false} RetriedIff(buf: seq<Byte>, input: seq<Read>)
    ensures Pending(buf, input) == Pending(buf, Retried(input)) <==> NoCut(buf, input)
    decreases |input|, |buf|
  {
    hide Take, Retried, Pending, NoCut;
    EndsWellIff(buf, input);
    RetriedFatal(buf, input);
    RetriedStep(input);
    Threaded.PendingSplit(buf, Retried(input));
    Threaded.PendingSplit(buf, input);
    PendingStep(buf, input);
    CutStep(buf, input);
    match Take(buf)
    case Took(line, rest) =>
      RetriedIff(rest, input);
      SameTail(Line(line), Pending(rest, input), Pending(rest, Retried(input)));
    case Overflow =>
    case More =>
      if input != [] && input[0].Chunk? {
        RetriedIff(buf + input[0].bytes, input[1..]);
      }
  }

  /** Chunks and an end of file, the cap violated or not: nothing is retried, and the readers agree. */
  lemma {:induction false} PlainSource(input: seq<Read>)
    requires forall k :: 0 <= k < |input| ==> !input[k].Failed?
    ensures Retried(input) == input && NoCut([], input)
  {
    if input != [] {
      PlainSource(input[1..]);
    }
  }

  /** Which failed reads are retried: these three kinds and no other. */
  lemma RetriedKinds(kind: ErrorKind)
    ensures Pending([], Retried([Failed(kind), AtEof])) ==
              if kind == WouldBlock || kind == TimedOut || kind == Interrupted then [End(Eof)] else [End(Io(kind))]
  {
    hide Pending, Take;
    var input := [Failed(kind), AtEof];
    assert input[1..] == [AtEof] && [AtEof][1..] == [];
    RetriedStep(input);
    RetriedStep([AtEof]);
    assert [AtEof] + Retried([]) == [AtEof] && [Failed(kind)] + [AtEof] == input;
    TakeRest([]);
    Threaded.PendingSplit([], input);
    Threaded.PendingSplit([], [AtEof]);
  }

  lemma SameTail(e: Event, a: seq<Event>, b: seq<Event>)
    ensures [e] + a == [e] + b <==> a == b
    ensures e.Line? ==> (EndsWell([e] + a) <==> EndsWell(a))
  {
    assert ([e] + a)[1..] == a && ([e] + b)[1..] == b;
  }

  /** The difference between the two, on one source: the threaded reader gives up where the inline
      one reads on. */
  lemma InterruptedDiffers(line: seq<Byte>)
    requires LF !in line && |line| <= MAX_LINE_BYTES
    ensures var input := [Failed(Interrupted), Chunk(line + [LF]), AtEof];
            && Pending([], input) == [End(Io(Interrupted))]
            && Pending([], Retried(input)) == [Line(line), End(Eof)]
  {
    hide Pending, Take;
    var tail := [Chunk(line + [LF]), AtEof];
    var input := [Failed(Interrupted)] + tail;
    assert input[1..] == tail && input == [Failed(Interrupted), Chunk(line + [LF]), AtEof];
    assert tail[1..] == [AtEof] && [AtEof][1..] == [];
    RetriedStep(input);
    RetriedStep(tail);
    RetriedStep([AtEof]);
    assert [AtEof] + Retried([]) == [AtEof] && [Chunk(line + [LF])] + [AtEof] == tail;
    OneLine(line, [AtEof]);
    TakeRest([]);
    assert [] + (line + [LF]) == line + [LF];
    Threaded.PendingSplit([], input);
    Threaded.PendingSplit([], tail);
    Threaded.PendingSplit([], [AtEof]);
  }

  lemma OneLine(line: seq<Byte>, input: seq<Read>)
    requires LF !in line
    ensures Pending(line + [LF], input) == [Line(line)] + Pending([], input)
  {
    hide IndexOfLf, Pending;
    var b := line + [LF];
    assert forall k :: 0 <= k < |line| ==> line[k] in line && b[k] == line[k];
    IndexUnique(b, |line|);
    assert b[..|line|] == line && b[|line| + 1..] == [];
    PendingStep(b, input);
  }
}
