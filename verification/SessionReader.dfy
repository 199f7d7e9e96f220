/** A session on a reader. `Session` leaves to the transport which line a read gets; here it gets the
    line a reader of the peer's bytes delivers, and the two are the same. */
module SessionReader {
  import opened Encoding
  import opened Values
  import opened Requests
  import opened Framing
  import opened Outcomes
  import opened Session
  import T = ThreadedReader

  /** What the session reads when the reader's call returns `o`. Nothing is known of the peer here. */
  function ReadGiven(l: Link, o: Outcome): (Link, ReadResult) {
    match o
    case TimeoutError => (l, ReadTimeout)
    case Got(Line(line)) => (l.(taken := l.taken + 1), GotLine(line))
    case Got(End(e)) => (l.(terminal := Some(e)), ReadError(e))
  }

  /** The choice of the transport that this stands for. */
  function Choice(o: Outcome): ReadChoice {
    match o
    case TimeoutError => TimesOut
    case Got(Line(_)) => GetsLine
    case Got(End(e)) => Ends(e)
  }

  /** An operation, how its write goes, and what the reader's call returns if it reads. */
  datatype Given = Given(op: Op, o: Outcome)

  predicate ReadsIn(s: State, op: Op) { !s.closed && op.w.WriteOk? }

  function CallGiven(s: State, fields: Request, w: WriteChoice, o: Outcome): (State, CallResult) {
    if s.closed then (s, WasClosed)
    else
      var l := Written(s.link, RequestLine(fields), w);
      if w.WriteFails? then (s.(link := l), NotWritten) else AfterRead(s, ReadGiven(l, o))
  }

  function OpGiven(s: State, x: Given): State {
    if x.op.Call? then CallGiven(s, x.op.fields, x.op.w, x.o).0
    else if s.closed then s
    else
      var l := Written(s.link, RequestLine(CLOSE_FIELDS), x.op.w);
      State(ClosedLink(if x.op.w.WriteOk? then ReadGiven(l, x.o).0 else l), true)
  }

  /** The session after the hello and some operations. */
  function After(hello: Outcome, xs: seq<Given>): State {
    if xs == [] then AfterHello(ReadGiven(FRESH, hello))
    else OpGiven(After(hello, xs[..|xs| - 1]), xs[|xs| - 1])
  }

  /** What the reader's calls returned to it, in order. */
  function Used(hello: Outcome, xs: seq<Given>): seq<Outcome> {
    if xs == [] then [hello]
    else
      var before, x := xs[..|xs| - 1], xs[|xs| - 1];
      Used(hello, before) + if ReadsIn(After(hello, before), x.op) then [x.o] else []
  }

  function Chosen(xs: seq<Given>): seq<Op> {
    if xs == [] then [] else Chosen(xs[..|xs| - 1]) + [xs[|xs| - 1].op.(r := Choice(xs[|xs| - 1].o))]
  }

  //
  // One read
  //

  /** What the reader still has to deliver is what the peer says from the line `l.taken` on: some of
      the lines it says in answer to `wire`, and perhaps an end. */
  ghost predicate Matches(heard: seq<seq<Byte>>, end: seq<Event>, l: Link, v: View) {
    && v.terminal == l.terminal
    && (l.terminal.None? ==> l.taken <= |heard| && v.coming == LineEvents(heard[l.taken..]) + end)
  }

  ghost predicate IsEnd(end: seq<Event>) { end == [] || (|end| == 1 && end[0].End?) }

  lemma SaidPrefix(p: Peer, a: seq<Byte>, b: seq<Byte>, k: nat)
    requires a <= b && k <= |Lines(a)|
    ensures k <= |Lines(b)| && Said(p, a, k) == Said(p, b, k)
  {
    hide Lines, Rest;
    SplitResumes(a, b[|a|..]);
    assert a + b[|a|..] == b;
  }

  lemma FirstHeard(heard: seq<seq<Byte>>, k: nat, end: seq<Event>)
    requires k <= |heard|
    ensures k < |heard| ==> LineEvents(heard[k..]) + end == [Line(heard[k])] + (LineEvents(heard[k + 1..]) + end)
    ensures k == |heard| ==> LineEvents(heard[k..]) + end == end
  {
    hide LineEvents;
    if k < |heard| {
      Cons(heard[k], heard[k + 1..]);
      assert heard[k..] == [heard[k]] + heard[k + 1..];
      Grouped([Line(heard[k])], LineEvents(heard[k + 1..]), end);
    } else {
      NoLines();
      assert [] + end == end;
    }
  }

  lemma Grouped(a: seq<Event>, b: seq<Event>, c: seq<Event>)
    ensures a + b + c == a + (b + c)
  {
  }

  lemma HeadTail(e: Event, f: Event, a: seq<Event>, b: seq<Event>)
    requires [e] + a == [f] + b
    ensures e == f && a == b
  {
    assert ([e] + a)[0] == e && ([f] + b)[0] == f && ([e] + a)[1..] == a && ([f] + b)[1..] == b;
  }

  /** The reader's line is the line the peer says next; so a read of the session is the same, whether
      the transport chooses or the reader delivers. */
  lemma ReadMatches(p: Peer, final: seq<Byte>, heard: seq<seq<Byte>>, end: seq<Event>,
                    l: Link, v: View, o: Outcome, w: View)
    requires heard <= AllSaid(p, final) && IsEnd(end) && l.wire <= final
    requires Matches(heard, end, l, v) && Delivers(v, o, w)
    requires l.terminal.None? ==> l.taken <= |Lines(l.wire)|
    ensures ReadGiven(l, o) == ReadOnce(p, l, Choice(o)) && Matches(heard, end, ReadGiven(l, o).0, w)
  {
    hide Lines, LineEvents, AllSaid, Said;
    if l.terminal.None? && o.Got? {
      FirstHeard(heard, l.taken, end);
      if l.taken < |heard| {
        HeadTail(o.event, Line(heard[l.taken]), w.coming, LineEvents(heard[l.taken + 1..]) + end);
        SaidPrefix(p, l.wire, final, l.taken);
        assert heard[l.taken] == AllSaid(p, final)[l.taken];
      } else {
        assert end == [o.event] + w.coming;
      }
    }
  }

  //
  // Runs
  //

  lemma WrittenGrows(l: Link, line: seq<Byte>, w: WriteChoice)
    ensures l.wire <= Written(l, line, w).wire
  {
  }

  lemma OpGrows(s: State, x: Given)
    ensures s.link.wire <= OpGiven(s, x).link.wire
    ensures !s.closed ==> Written(s.link, RequestLine(WriteOf(x.op).0), x.op.w).wire == OpGiven(s, x).link.wire
  {
    hide RequestLine, ReadAnswer, Written;
    WrittenGrows(s.link, RequestLine(WriteOf(x.op).0), x.op.w);
  }

  /** After a whole request there is a line to read, of those the peer has said. */
  lemma SomethingToRead(s: State, fields: Request)
    requires InStep(s) && !s.closed
    ensures var l := Written(s.link, RequestLine(fields), WriteOk);
            l.taken == s.link.taken && l.terminal == s.link.terminal && (l.terminal.None? ==> l.taken <= |Lines(l.wire)|)
  {
    hide Lines, RequestLine;
    WrittenLines(s.link, fields, WriteOk);
  }

  lemma OpMatches(p: Peer, final: seq<Byte>, heard: seq<seq<Byte>>, end: seq<Event>,
                  s: State, v: View, x: Given, w: View)
    requires heard <= AllSaid(p, final) && IsEnd(end) && OpGiven(s, x).link.wire <= final
    requires InStep(s) && (s.closed || Matches(heard, end, s.link, v))
    requires if ReadsIn(s, x.op) then Delivers(v, x.o, w) else w == v
    ensures OpGiven(s, x) == OpNext(p, s, x.op.(r := Choice(x.o)))
    ensures x.op.Call? ==>
              CallGiven(s, x.op.fields, x.op.w, x.o) == CallNext(p, s, x.op.fields, x.op.w, Choice(x.o))
    ensures OpGiven(s, x).closed || Matches(heard, end, OpGiven(s, x).link, w)
  {
    hide Lines, RequestLine, ReadAnswer, LineEvents, AllSaid, Delivers, ReadOnce, Choice;
    if !s.closed {
      var fields := WriteOf(x.op).0;
      var l := Written(s.link, RequestLine(fields), x.op.w);
      OpGrows(s, x);
      WrittenKeeps(s.link, RequestLine(fields), x.op.w);
      if x.op.w.WriteOk? {
        SomethingToRead(s, fields);
        ReadMatches(p, final, heard, end, l, v, x.o, w);
      }
    }
  }

  lemma {:induction false} RunPush(p: Peer, s: State, ops: seq<Op>, op: Op)
    ensures Run(p, s, ops + [op]) == OpNext(p, Run(p, s, ops), op)
    decreases |ops|
  {
    hide OpNext;
    if ops == [] {
      assert ops + [op] == [op] && [op][1..] == [];
    } else {
      assert (ops + [op])[1..] == ops[1..] + [op];
      RunPush(p, OpNext(p, s, ops[0]), ops[1..], op);
    }
  }

  /** In every run a session on a reader is the session on a transport that chose the same. */
  lemma {:induction false} OnReader(p: Peer, final: seq<Byte>, heard: seq<seq<Byte>>, end: seq<Event>,
                                    hello: Outcome, xs: seq<Given>, w: View)
    requires heard <= AllSaid(p, final) && IsEnd(end) && After(hello, xs).link.wire <= final
    requires Reads(View(LineEvents(heard) + end, None), Used(hello, xs), w)
    ensures var s := After(hello, xs);
            && s == Run(p, Opened(p, FRESH, Choice(hello)), Chosen(xs))
            && InStep(s) && (s.closed || Matches(heard, end, s.link, w))
    decreases |xs|
  {
    hide LineEvents, AllSaid, Opened, AfterHello, Matches, OpGiven, OpNext, InStep, Delivers;
    var v := View(LineEvents(heard) + end, None);
    OpensInStep(p, Choice(hello));
    if xs == [] {
      var m :| Reads(v, [], m) && Delivers(m, hello, w);
      HelloMatches(p, final, heard, end, hello, w);
    } else {
      var before, x := xs[..|xs| - 1], xs[|xs| - 1];
      var s := After(hello, before);
      OpGrows(s, x);
      var m := w;
      if ReadsIn(s, x.op) {
        var outcomes := Used(hello, xs);
        assert outcomes[..|outcomes| - 1] == Used(hello, before);
        m :| Reads(v, Used(hello, before), m) && Delivers(m, x.o, w);
      } else {
        assert Used(hello, before) + [] == Used(hello, before);
      }
      OnReader(p, final, heard, end, hello, before, m);
      OpMatches(p, final, heard, end, s, m, x, w);
      OpInStep(p, s, x.op.(r := Choice(x.o)));
      RunPush(p, Opened(p, FRESH, Choice(hello)), Chosen(before), x.op.(r := Choice(x.o)));
    }
  }

  lemma HelloMatches(p: Peer, final: seq<Byte>, heard: seq<seq<Byte>>, end: seq<Event>, hello: Outcome, w: View)
    requires heard <= AllSaid(p, final) && IsEnd(end)
    requires Delivers(View(LineEvents(heard) + end, None), hello, w)
    ensures var s := AfterHello(ReadGiven(FRESH, hello));
            && s == Opened(p, FRESH, Choice(hello)) && (s.closed || Matches(heard, end, s.link, w))
  {
    hide LineEvents, AllSaid, DecodeHello, Delivers;
    assert heard[0..] == heard;
    ReadMatches(p, final, heard, end, FRESH, View(LineEvents(heard) + end, None), hello, w);
  }

  /** If failed writes send nothing, every response is the peer's answer to the call's own request, in
      every run of a session on a reader of what the peer says. */
  lemma OwnResponsesOnReader(p: Peer, final: seq<Byte>, heard: seq<seq<Byte>>, end: seq<Event>,
                             hello: Outcome, xs: seq<Given>, call: Given, w: View)
    requires heard <= AllSaid(p, final) && IsEnd(end) && After(hello, xs + [call]).link.wire <= final
    requires Reads(View(LineEvents(heard) + end, None), Used(hello, xs + [call]), w)
    requires call.op.Call? && Clean(Chosen(xs))
    ensures var s := After(hello, xs);
            var result := CallGiven(s, call.op.fields, call.op.w, call.o).1;
            result.Reply? ==>
              result.answer == ReadAnswer(p.respond(|Lines(s.link.wire)|, Body(call.op.fields)))
  {
    hide LineEvents, AllSaid, Opened, Run, Lines, RequestLine, ReadAnswer, Body, Matches, Delivers, OpNext, InStep;
    var ys := xs + [call];
    var s := After(hello, xs);
    assert ys[..|ys| - 1] == xs && ys[|ys| - 1] == call;
    if CallGiven(s, call.op.fields, call.op.w, call.o).1.Reply? {
      OpGrows(s, call);
      var outcomes := Used(hello, ys);
      assert outcomes[..|outcomes| - 1] == Used(hello, xs);
      var m :| Reads(View(LineEvents(heard) + end, None), Used(hello, xs), m) && Delivers(m, call.o, w);
      OnReader(p, final, heard, end, hello, xs, m);
      OpMatches(p, final, heard, end, s, m, call, w);
      OwnResponses(p, Choice(hello), Chosen(xs), call.op.fields, call.op.w, Choice(call.o));
    }
  }

  //
  // The peer's bytes
  //

  /** The bytes of the peer: lines it says, each within the cap, and an unfinished one; cut anywhere;
      and then nothing more, or an end or an error. */
  ghost predicate Speaks(heard: seq<seq<Byte>>, open: seq<Byte>, chunks: seq<seq<Byte>>, tail: seq<Read>) {
    && NoLf(heard) && LF !in open && |open| <= MAX_LINE_BYTES
    && (forall k :: 0 <= k < |heard| ==> |heard[k]| <= MAX_LINE_BYTES)
    && Flatten(chunks) == Join(heard) + open
    && (tail != [] ==> !tail[0].Chunk?)
  }

  /** What a reader of them has to deliver. */
  lemma SpokenEvents(heard: seq<seq<Byte>>, open: seq<Byte>, chunks: seq<seq<Byte>>, tail: seq<Read>)
    requires Speaks(heard, open, chunks, tail)
    ensures var end := Pending(open, tail);
            IsEnd(end) && Pending([], ChunkReads(chunks) + tail) == LineEvents(heard) + end
  {
    hide Lines, Rest, LineEvents, Take;
    SplitUnique(heard, open);
    assert [] + Flatten(chunks) == Flatten(chunks);
    ChunksFit([], chunks, tail);
    TakeRest(open);
  }

  /** So it is for a session on any reader whose calls deliver the events of the peer's bytes, however
      these are cut into chunks. `InlineReader.ReadAll` says that of the socket's reader. */
  lemma OwnResponsesOverBytes(p: Peer, final: seq<Byte>, heard: seq<seq<Byte>>, open: seq<Byte>,
                              chunks: seq<seq<Byte>>, tail: seq<Read>, outcomes: seq<Outcome>, w: View,
                              hello: Outcome, xs: seq<Given>, call: Given)
    requires Speaks(heard, open, chunks, tail)
    requires heard <= AllSaid(p, final) && After(hello, xs + [call]).link.wire <= final
    requires Reads(View(Pending([], ChunkReads(chunks) + tail), None), outcomes, w)
    requires Used(hello, xs + [call]) <= outcomes && call.op.Call? && Clean(Chosen(xs))
    ensures var s := After(hello, xs);
            var result := CallGiven(s, call.op.fields, call.op.w, call.o).1;
            result.Reply? ==>
              result.answer == ReadAnswer(p.respond(|Lines(s.link.wire)|, Body(call.op.fields)))
  {
    hide Speaks, LineEvents, AllSaid, Reads, After, Used, Lines, CallGiven, Clean, Chosen;
    SpokenEvents(heard, open, chunks, tail);
    var m := ReadsPrefix(View(Pending([], ChunkReads(chunks) + tail), None), Used(hello, xs + [call]), outcomes, w);
    OwnResponsesOnReader(p, final, heard, Pending(open, tail), hello, xs, call, m);
  }

  /** And for the threaded reader, in every interleaving of its thread and its calls. */
  lemma OwnResponsesThreaded(p: Peer, final: seq<Byte>, heard: seq<seq<Byte>>, open: seq<Byte>,
                             chunks: seq<seq<Byte>>, tail: seq<Read>, steps: seq<T.Step>,
                             hello: Outcome, xs: seq<Given>, call: Given)
    requires Speaks(heard, open, chunks, tail) && T.DropReceiver !in steps
    requires heard <= AllSaid(p, final) && After(hello, xs + [call]).link.wire <= final
    requires Used(hello, xs + [call]) <= T.Run(T.Init(ChunkReads(chunks) + tail), steps).outcomes
    requires call.op.Call? && Clean(Chosen(xs))
    ensures var s := After(hello, xs);
            var result := CallGiven(s, call.op.fields, call.op.w, call.o).1;
            result.Reply? ==>
              result.answer == ReadAnswer(p.respond(|Lines(s.link.wire)|, Body(call.op.fields)))
  {
    hide Speaks, LineEvents, AllSaid, T.Run, Reads, After, Used, Lines, CallGiven, Clean, Chosen;
    var input := ChunkReads(chunks) + tail;
    T.RunReads(input, steps);
    var t := T.Run(T.Init(input), steps);
    OwnResponsesOverBytes(p, final, heard, open, chunks, tail, t.outcomes, T.SeenBy(t), hello, xs, call);
  }

  /** The shortest such run: the hello, one call, and its response. */
  lemma OneCall(p: Peer, fields: Request, r: ReadChoice)
    requires DecodeHello(p.hello) == Some(PROTOCOL)
    ensures var response := p.respond(0, Body(fields));
            var hello := Got(Line(p.hello));
            var call := Given(Call(fields, WriteOk, r), Got(Line(response)));
            && CallGiven(After(hello, []), fields, WriteOk, call.o).1 == Reply(ReadAnswer(response))
            && AllSaid(p, After(hello, [call]).link.wire) == [p.hello, response]
            && Used(hello, [call]) == [hello, call.o]
            && Reads(View(LineEvents([p.hello, response]) + [], None), Used(hello, [call]), View([], None))
  {
    hide RequestLine, ReadAnswer, DecodeHello, Lines, Rest, Body, Delivers, Reads;
    var response := p.respond(0, Body(fields));
    var hello := Got(Line(p.hello));
    var call := Given(Call(fields, WriteOk, r), Got(Line(response)));
    var s := After(hello, []);
    assert [call][..0] == [] && [hello] + [call.o] == [hello, call.o];
    OneLineMore([], fields);
    OpensInStep(p, GetsLine);
    OpenedEmpty(p, GetsLine);
    assert [] + RequestLine(fields) == RequestLine(fields) && [] + Body(fields) == Body(fields);
    assert Lines([]) == [] by { SplitUnique([], []); NoLines(); JoinNone(); }
    assert Lines(RequestLine(fields)) == [Body(fields)];
    assert After(hello, [call]).link.wire == RequestLine(fields);
    TwoReads(p.hello, response);
  }

  lemma JoinNone()
    ensures Join([]) + [] == []
  {
  }

  lemma TwoReads(a: seq<Byte>, b: seq<Byte>)
    ensures Reads(View(LineEvents([a, b]) + [], None), [Got(Line(a)), Got(Line(b))], View([], None))
  {
    hide Reads;
    var v0, v1, v2 := View(LineEvents([a, b]) + [], None), View([Line(b)], None), View([], None);
    assert [a, b][1..] == [b] && [b][1..] == [];
    assert LineEvents([b]) == [Line(b)] && LineEvents([a, b]) + [] == [Line(a)] + [Line(b)];
    assert Delivers(v0, Got(Line(a)), v1) && Delivers(v1, Got(Line(b)), v2);
    assert Reads(v0, [], v0) by { NoReads(v0); }
    ReadsPush(v0, [], v0, Got(Line(a)), v1);
    assert [] + [Got(Line(a))] == [Got(Line(a))];
    ReadsPush(v0, [Got(Line(a))], v1, Got(Line(b)), v2);
    assert [Got(Line(a))] + [Got(Line(b))] == [Got(Line(a)), Got(Line(b))];
  }

  lemma NoReads(v: View)
    ensures Reads(v, [], v)
  {
  }

  /** When a session closes itself in order, its reader has one event left at most: the end. */
  lemma CloseReadsAll(p: Peer, heard: seq<seq<Byte>>, end: seq<Event>, hello: Outcome, xs: seq<Given>, close: Given, w: View)
    requires close.op.CloseOp? && close.op.w == WriteOk && close.o.Got? && close.o.event.Line?
    requires !After(hello, xs).closed && After(hello, xs).link.terminal.None? && Clean(Chosen(xs))
    requires heard == AllSaid(p, After(hello, xs + [close]).link.wire) && IsEnd(end)
    requires Reads(View(LineEvents(heard) + end, None), Used(hello, xs + [close]), w)
    ensures w.coming == end
  {
    hide LineEvents, AllSaid, Opened, Run, Lines, RequestLine, Delivers, OpNext, InStep, Written;
    var ys := xs + [close];
    var s := After(hello, xs);
    var final := After(hello, ys).link.wire;
    assert ys[..|ys| - 1] == xs && ys[|ys| - 1] == close;
    OpGrows(s, close);
    var outcomes := Used(hello, ys);
    assert outcomes[..|outcomes| - 1] == Used(hello, xs);
    var m :| Reads(View(LineEvents(heard) + end, None), Used(hello, xs), m) && Delivers(m, close.o, w);
    OnReader(p, final, heard, end, hello, xs, m);
    var l := Written(s.link, RequestLine(CLOSE_FIELDS), WriteOk);
    SomethingToRead(s, CLOSE_FIELDS);
    ReadMatches(p, final, heard, end, l, m, close.o, w);
    CleanCounts(Chosen(xs));
    CloseDrains(p, Choice(hello), Chosen(xs));
    NoneLeft(heard, end, ReadGiven(l, close.o).0, w);
  }

  lemma NoneLeft(heard: seq<seq<Byte>>, end: seq<Event>, l: Link, w: View)
    requires Matches(heard, end, l, w) && l.terminal.None? && l.taken == |heard|
    ensures w.coming == end
  {
    FirstHeard(heard, l.taken, end);
  }
}
