/** `Session` of rust/src/session.rs: no request ids, so responses are matched by order alone.

    The peer says one hello line, and then one line for every complete line it gets. What the
    transport does at each step is a parameter, so every statement holds for all it may do. */
module Session {
  import opened Encoding
  import opened Json
  import opened ParserSpec
  import opened Values
  import opened Grammar
  import opened JsonWriter
  import opened Requests
  import opened Framing

  datatype Peer = Peer(hello: seq<Byte>, respond: (nat, seq<Byte>) -> seq<Byte>)

  /** The connection. `taken` counts the lines read from the peer; `strays`, the failed writes that
      the peer got all of nevertheless; `closes` and `late`, the calls of `close` and the writes
      after one. */
  datatype Link = Link(
    wire: seq<Byte>, taken: nat, terminal: Option<Error>, strays: nat, closes: nat, late: nat)

  const FRESH := Link([], 0, None, 0, 0, 0)

  /** A write succeeds, or fails after some of its bytes. */
  datatype WriteChoice = WriteOk | WriteFails(after: nat)

  /** A read gets the next line, if there is one; or its time is over; or the connection ends. */
  datatype ReadChoice = GetsLine | TimesOut | Ends(error: Error)

  datatype ReadResult = GotLine(line: seq<Byte>) | ReadTimeout | ReadError(error: Error)

  /** The line the peer says after it got the lines of `wire`. */
  function Said(p: Peer, wire: seq<Byte>, k: nat): seq<Byte>
    requires k <= |Lines(wire)|
  {
    if k == 0 then p.hello else p.respond(k - 1, Lines(wire)[k - 1])
  }

  /** All that a peer says. */
  function AllSaid(p: Peer, wire: seq<Byte>): (lines: seq<seq<Byte>>)
    ensures |lines| == |Lines(wire)| + 1
    ensures forall k :: 0 <= k < |lines| ==> lines[k] == Said(p, wire, k)
  {
    seq(|Lines(wire)| + 1, k requires 0 <= k <= |Lines(wire)| => Said(p, wire, k))
  }

  function Written(l: Link, line: seq<Byte>, w: WriteChoice): Link {
    var all := w.WriteOk? || w.after >= |line|;
    l.(wire := l.wire + (if all then line else line[..w.after]),
       strays := l.strays + (if w.WriteFails? && all then 1 else 0),
       late := l.late + (if l.closes > 0 then 1 else 0))
  }

  /** A terminal error is remembered; a line counts as read once. */
  function ReadOnce(p: Peer, l: Link, r: ReadChoice): (Link, ReadResult) {
    if l.terminal.Some? then (l, ReadError(l.terminal.value))
    else match r
      case GetsLine =>
        if l.taken <= |Lines(l.wire)| then (l.(taken := l.taken + 1), GotLine(Said(p, l.wire, l.taken)))
        else (l, ReadTimeout)
      case TimesOut => (l, ReadTimeout)
      case Ends(e) => (l.(terminal := Some(e)), ReadError(e))
  }

  function ClosedLink(l: Link): Link { l.(terminal := Some(Closed), closes := l.closes + 1) }

  //
  // The session as a state machine
  //

  datatype State = State(link: Link, closed: bool)

  /** What `call` returns: a decoded response line, or why there is none. */
  datatype CallResult = Reply(answer: Answer) | NotWritten | NotRead(error: Error) | CallTimeout | WasClosed

  function CallNext(p: Peer, s: State, fields: Request, w: WriteChoice, r: ReadChoice): (State, CallResult) {
    if s.closed then (s, WasClosed)
    else
      var l := Written(s.link, RequestLine(fields), w);
      if w.WriteFails? then (s.(link := l), NotWritten) else AfterRead(s, ReadOnce(p, l, r))
  }

  /** What `call` makes of what it read. */
  function AfterRead(s: State, read: (Link, ReadResult)): (State, CallResult) {
    match read.1
    case GotLine(line) => (s.(link := read.0), Reply(ReadAnswer(line)))
    case ReadTimeout => (State(ClosedLink(read.0), true), CallTimeout)
    case ReadError(e) => (s.(link := read.0), NotRead(e))
  }

  const CLOSE_FIELDS: Request := CloseFields()

  function CloseFields(): Request {
    var fields := [Member(Ascii("op"), String(Ascii("close")))];
    assert IsText(Utf8, Ascii("op")) && IsText(Utf8, Ascii("close"));
    fields
  }

  /** The close request on the wire. */
  lemma CloseLine()
    ensures RequestLine(CLOSE_FIELDS) == Ascii("{\"op\":\"close\"}\n")
  {
    hide Write, RequestLine;
    CloseText(CLOSE_FIELDS);
    AsciiLine(CLOSE_FIELDS);
    CloseWire();
  }

  lemma CloseWire()
    ensures Ascii("{\"op\":\"close\"}\n") ==
            [0x7B, 0x22, 0x6F, 0x70, 0x22, 0x3A, 0x22, 0x63, 0x6C, 0x6F, 0x73, 0x65, 0x22, 0x7D] + [0x0A]
  {
  }

  lemma AsciiLine(fields: Request)
    requires forall k :: 0 <= k < |Write(Object(fields))| ==> 0 <= Write(Object(fields))[k] < 0x80
    ensures RequestLine(fields) == Write(Object(fields)) + [0x0A]
  {
    hide Write, EncAll;
    EncAscii(Utf8, Write(Object(fields)));
  }

  lemma CloseText(ms: seq<Member>)
    requires ms == [Member(Ascii("op"), String(Ascii("close")))]
    ensures Write(Object(ms)) == [0x7B, 0x22, 0x6F, 0x70, 0x22, 0x3A, 0x22, 0x63, 0x6C, 0x6F, 0x73, 0x65, 0x22, 0x7D]
  {
    hide WriteString;
    var op, close := Ascii("op"), Ascii("close");
    QuotedPlain(op);
    QuotedPlain(close);
    assert op == [0x6F, 0x70] && close == [0x63, 0x6C, 0x6F, 0x73, 0x65];
    assert ms[1..] == [] && WriteMembers(ms) == WriteMember(ms[0]) + [];
    assert WriteMember(ms[0]) == WriteString(op) + ([0x3A] + WriteString(close));
    assert Write(Object(ms)) == [0x7B] + (WriteMembers(ms) + [0x7D]);
  }

  lemma QuotedPlain(s: seq<int>)
    requires forall k :: 0 <= k < |s| ==> 0x61 <= s[k] <= 0x7A
    ensures WriteString(s) == [0x22] + (s + [0x22])
  {
    Plain(s);
  }

  lemma {:induction false} Plain(s: seq<int>)
    requires forall k :: 0 <= k < |s| ==> 0x61 <= s[k] <= 0x7A
    ensures WriteChars(s) == s
  {
    if s != [] {
      Plain(s[1..]);
    }
  }

  /** `close`, and `drop`. */
  function CloseNext(p: Peer, s: State, w: WriteChoice, r: ReadChoice): State {
    if s.closed then s
    else
      var l := Written(s.link, RequestLine(CLOSE_FIELDS), w);
      State(ClosedLink(if w.WriteOk? then ReadOnce(p, l, r).0 else l), true)
  }

  const PROTOCOL := 1
  const PROTOCOL_KEY := Ascii("protocol")
  const VERSION_KEY := Ascii("version")
  const PRODUCT_KEY := Ascii("product")

  function GetText(v: Json, key: seq<int>): Option<seq<int>> {
    match v.Get(key) case Some(String(s)) => Some(s) case _ => None
  }

  /** `decode_hello`: the protocol number, if everything required is there. */
  function DecodeHello(line: seq<Byte>): Option<int> {
    match ParseRust(line)
    case None => None
    case Some(v) =>
      if !v.Object? then None
      else match v.Get(PROTOCOL_KEY)
        case Some(Number(token)) =>
          if GetText(v, VERSION_KEY).Some? && GetText(v, PRODUCT_KEY).Some? then
            (match ParseI64(token) case Some(i) => Some(i) case None => None)
          else None
        case _ => None
  }

  /** `Session::new`: an open session, or a connection closed again. */
  function Opened(p: Peer, l: Link, r: ReadChoice): State { AfterHello(ReadOnce(p, l, r)) }

  function AfterHello(read: (Link, ReadResult)): State {
    if read.1.GotLine? && DecodeHello(read.1.line) == Some(PROTOCOL) then State(read.0, false)
    else State(ClosedLink(read.0), true)
  }

  ghost predicate IsTextField(v: Option<Json>) { v.Some? && v.value.String? }

  /** A session is opened if and only if the hello is an object whose "protocol" is the integer 1 and
      whose "version" and "product" are texts. */
  lemma OpensIff(p: Peer)
    ensures !Opened(p, FRESH, GetsLine).closed <==>
              match ParseRust(p.hello)
              case Some(Object(ms)) =>
                && Lookup(ms, Ascii("protocol")) == Some(Number(Ascii("1")))
                && IsTextField(Lookup(ms, Ascii("version"))) && IsTextField(Lookup(ms, Ascii("product")))
              case _ => false
  {
    hide ParseRust, Lookup, ParseI64;
    match ParseRust(p.hello)
    case Some(Object(ms)) =>
      var v := Lookup(ms, Ascii("protocol"));
      if v.Some? && v.value.Number? {
        ParsedWritable(p.hello);
        FoundNumber(ms, Ascii("protocol"));
        OnlyOne(v.value.token);
      }
    case _ =>
  }

  lemma {:induction false} FoundNumber(ms: seq<Member>, key: seq<int>)
    requires NumbersOk(Object(ms)) && Lookup(ms, key).Some? && Lookup(ms, key).value.Number?
    ensures IsNumber(Lookup(ms, key).value.token)
  {
    hide IsNumber;
    if ms[0].key != key {
      assert forall k :: 0 <= k < |ms[1..]| ==> ms[1..][k] == ms[k + 1];
      FoundNumber(ms[1..], key);
    } else {
      assert NumbersOk(ms[0].value);
    }
  }

  /** The one token that is the integer 1. */
  lemma OnlyOne(t: seq<int>)
    requires IsNumber(t)
    ensures ParseI64(t) == Some(1) <==> t == Ascii("1")
  {
    hide IsNumber, ParseI64, PrintInt, IsReal;
    PrintedInt(0, 1);
    assert Ascii("1") == [Ascii("0123456789")[1]];
    IntRoundTrip(1);
    if IsReal(t) {
      RealNotInt(t);
    } else {
      var i := IntegerTokens(t);
    }
  }

  lemma RealNotInt(t: seq<int>)
    requires IsReal(t)
    ensures ParseI64(t) == None
  {
    var k :| 0 <= k < |t| && (t[k] == DOT || IsExp(t[k]));
    if t[0] == PLUS || t[0] == MINUS {
      assert k > 0 && t[1..][k - 1] == t[k];
    }
  }

  /** So of the hello that a peer writes; and a peer of another protocol is refused. */
  lemma OpensForWritten(p: Peer, ms: seq<Member>)
    requires Writable(Utf8, Object(ms)) && p.hello == EncAll(Utf8, Write(Object(ms)))
    ensures !Opened(p, FRESH, GetsLine).closed <==>
              && Lookup(ms, Ascii("protocol")) == Some(Number(Ascii("1")))
              && IsTextField(Lookup(ms, Ascii("version"))) && IsTextField(Lookup(ms, Ascii("product")))
  {
    hide ParseRust, Lookup, Write, Opened;
    RustRoundTrip(Object(ms));
    OpensIff(p);
  }

  /** What the user of a session may do, and what the transport does then. */
  datatype Op = Call(fields: Request, w: WriteChoice, r: ReadChoice) | CloseOp(w: WriteChoice, r: ReadChoice)

  function OpNext(p: Peer, s: State, op: Op): State {
    if op.Call? then CallNext(p, s, op.fields, op.w, op.r).0 else CloseNext(p, s, op.w, op.r)
  }

  function Run(p: Peer, s: State, ops: seq<Op>): State
    decreases |ops|
  {
    if ops == [] then s else Run(p, OpNext(p, s, ops[0]), ops[1..])
  }

  //
  // Life and death
  //

  ghost predicate Alive(s: State) { s.link.late == 0 && s.link.closes == if s.closed then 1 else 0 }

  lemma {:induction false} RunAlive(p: Peer, s: State, ops: seq<Op>)
    requires Alive(s)
    ensures Alive(Run(p, s, ops))
    ensures s.closed ==> Run(p, s, ops) == s
    decreases |ops|
  {
    hide Written, ReadOnce, RequestLine, DecodeHello;
    if ops != [] {
      OpAlive(p, s, ops[0]);
      RunAlive(p, OpNext(p, s, ops[0]), ops[1..]);
    }
  }

  lemma OpAlive(p: Peer, s: State, op: Op)
    requires Alive(s)
    ensures Alive(OpNext(p, s, op)) && (s.closed ==> OpNext(p, s, op) == s)
  {
    hide RequestLine, ReadAnswer, Lines;
  }

  /** What the two counts are: every write after a close is late, and every close counts. */
  lemma LateWritesCount(l: Link, line: seq<Byte>, w: WriteChoice)
    ensures ClosedLink(l).closes == l.closes + 1
    ensures Written(l, line, w).late == l.late <==> l.closes == 0
    ensures Written(l, line, w).late == l.late + 1 <==> l.closes > 0
  {
  }

  /** In every life of a session -- opened or not, any calls, closed or not, dropped -- the transport
      is closed exactly once, and nothing is written after that. */
  lemma ClosedOnce(p: Peer, hello: ReadChoice, ops: seq<Op>, w: WriteChoice, r: ReadChoice)
    ensures var end := CloseNext(p, Run(p, Opened(p, FRESH, hello), ops), w, r);
            end.closed && end.link.closes == 1 && end.link.late == 0
  {
    hide DecodeHello, RequestLine, Lines;
    var s := Opened(p, FRESH, hello);
    RunAlive(p, s, ops);
    OpAlive(p, Run(p, s, ops), CloseOp(w, r));
  }

  /** Once closed, by a timeout or otherwise, a session stays as it is whatever is done: no call gets
      anything but the error, and no line is read any more. */
  lemma ClosedForever(p: Peer, s: State, ops: seq<Op>, fields: Request, w: WriteChoice, r: ReadChoice)
    requires Alive(s) && (s.closed || CallNext(p, s, fields, w, r).1.CallTimeout?)
    ensures var t := CallNext(p, s, fields, w, r).0;
            && t.closed && Run(p, t, ops) == t
            && forall again, w', r' :: CallNext(p, t, again, w', r') == (t, WasClosed)
  {
    hide RequestLine, ReadAnswer, Lines;
    OpAlive(p, s, Call(fields, w, r));
    RunAlive(p, CallNext(p, s, fields, w, r).0, ops);
  }

  //
  // Requests and responses stay together
  //

  /** While the session can still read, the lines not read yet are as many as the failed writes that
      the peer got all of. */
  ghost predicate InStep(s: State) {
    && (s.closed ==> s.link.terminal.Some?)
    && (s.link.terminal.None? ==> |Lines(s.link.wire)| + 1 == s.link.taken + s.link.strays)
  }

  /** One line more is on the wire, and what was left open before is its beginning. */
  lemma OneLineMore(wire: seq<Byte>, fields: Request)
    ensures var after := wire + RequestLine(fields);
            Lines(after) == Lines(wire) + [Rest(wire) + Body(fields)] && Rest(after) == []
  {
    hide Lines, Rest, Body;
    OneLine(fields);
    SplitJoins(wire);
    SplitResumes(wire, RequestLine(fields));
    var b := Rest(wire) + Body(fields);
    assert Rest(wire) + RequestLine(fields) == b + [Framing.LF] == b + [Framing.LF] + [];
    NoLines();
    Cons(b, []);
    assert [b] + [] == [b];
    assert Join([b]) + [] == b + [Framing.LF] + [];
    SplitUnique([b], []);
  }

  /** A part of a request is no line yet. */
  lemma PartOfLine(wire: seq<Byte>, fields: Request, n: nat)
    requires n < |RequestLine(fields)|
    ensures var part := RequestLine(fields)[..n];
            Lines(wire + part) == Lines(wire) && Rest(wire + part) == Rest(wire) + part
  {
    hide Lines, Rest, Body;
    OneLine(fields);
    var part := RequestLine(fields)[..n];
    assert forall k :: 0 <= k < n ==> part[k] == Body(fields)[k] && part[k] in Body(fields);
    SplitJoins(wire);
    SplitResumes(wire, part);
    var b := Rest(wire) + part;
    NoLines();
    assert [] + b == b;
    SplitUnique([], b);
  }

  lemma WrittenLines(l: Link, fields: Request, w: WriteChoice)
    ensures var t := Written(l, RequestLine(fields), w);
            if w.WriteFails? && w.after < |RequestLine(fields)| then
              && Lines(t.wire) == Lines(l.wire) && t.strays == l.strays
              && Rest(t.wire) == Rest(l.wire) + RequestLine(fields)[..w.after]
            else
              && Lines(t.wire) == Lines(l.wire) + [Rest(l.wire) + Body(fields)] && Rest(t.wire) == []
              && t.strays == l.strays + if w.WriteFails? then 1 else 0
  {
    hide Lines, Rest, Body, RequestLine;
    if w.WriteFails? && w.after < |RequestLine(fields)| {
      PartOfLine(l.wire, fields, w.after);
    } else {
      OneLineMore(l.wire, fields);
    }
  }

  lemma OpInStep(p: Peer, s: State, op: Op)
    requires InStep(s)
    ensures InStep(OpNext(p, s, op))
  {
    hide Lines, Rest, Body, RequestLine, ReadAnswer, Said, Written;
    if !s.closed {
      var fields := if op.Call? then op.fields else CLOSE_FIELDS;
      WrittenLines(s.link, fields, op.w);
      assert Written(s.link, RequestLine(fields), op.w).taken == s.link.taken
          && Written(s.link, RequestLine(fields), op.w).terminal == s.link.terminal by { WrittenKeeps(s.link, RequestLine(fields), op.w); }
    }
  }

  lemma WrittenKeeps(l: Link, line: seq<Byte>, w: WriteChoice)
    ensures var t := Written(l, line, w); t.taken == l.taken && t.terminal == l.terminal && t.closes == l.closes
  {
  }

  lemma {:induction false} RunInStep(p: Peer, s: State, ops: seq<Op>)
    requires InStep(s)
    ensures InStep(Run(p, s, ops))
    decreases |ops|
  {
    hide InStep, OpNext;
    if ops != [] {
      OpInStep(p, s, ops[0]);
      RunInStep(p, OpNext(p, s, ops[0]), ops[1..]);
    }
  }

  lemma OpensInStep(p: Peer, hello: ReadChoice)
    ensures InStep(Opened(p, FRESH, hello)) && Alive(Opened(p, FRESH, hello))
  {
    hide DecodeHello;
    assert Lines([]) == [];
  }

  /** A request that was written: the peer's line with this number is its answer to this request. */
  ghost predicate OwnLine(before: seq<Byte>, fields: Request, k: nat) {
    var lines := Lines(before + RequestLine(fields));
    k == |Lines(before)| + 1 && k <= |lines| && lines[k - 1] == Body(fields)
  }

  /** Every call that gets a response, in every run: the response is the peer's answer to the request
      that many places back as there were failed writes the peer got all of. It is the answer to
      the call's own request exactly when there was no such write and no part of a failed write was
      left on the wire. */
  lemma WhichResponse(p: Peer, hello: ReadChoice, ops: seq<Op>, fields: Request, w: WriteChoice, r: ReadChoice)
    ensures var s := Run(p, Opened(p, FRESH, hello), ops);
            var (t, result) := CallNext(p, s, fields, w, r);
            result.Reply? ==>
              && t.link.wire == s.link.wire + RequestLine(fields)
              && s.link.taken + s.link.strays == |Lines(s.link.wire)| + 1 && s.link.taken <= |Lines(t.link.wire)|
              && result.answer == ReadAnswer(Said(p, t.link.wire, s.link.taken))
              && (OwnLine(s.link.wire, fields, s.link.taken) <==> s.link.strays == 0 && Rest(s.link.wire) == [])
  {
    hide Lines, Rest, Body, RequestLine, ReadAnswer, Said, Opened, Run;
    var s := Run(p, Opened(p, FRESH, hello), ops);
    OpensInStep(p, hello);
    RunInStep(p, Opened(p, FRESH, hello), ops);
    OneLineMore(s.link.wire, fields);
    if Rest(s.link.wire) == [] {
      assert [] + Body(fields) == Body(fields);
    } else {
      assert |Rest(s.link.wire) + Body(fields)| > |Body(fields)|;
    }
  }

  function WriteOf(op: Op): (Request, WriteChoice) { (if op.Call? then op.fields else CLOSE_FIELDS, op.w) }

  /** Whether the peer gets all of a line though the write fails; or only a part of it. */
  predicate IsStray(op: Op) { op.w.WriteFails? && op.w.after >= |RequestLine(WriteOf(op).0)| }
  predicate IsPart(op: Op) { op.w.WriteFails? && op.w.after < |RequestLine(WriteOf(op).0)| }

  function Strays(ops: seq<Op>): nat { if ops == [] then 0 else (if IsStray(ops[0]) then 1 else 0) + Strays(ops[1..]) }

  /** The parts of failed writes that no complete line came after. */
  function Parts(open: seq<Byte>, ops: seq<Op>): seq<Byte>
    decreases |ops|
  {
    if ops == [] then open
    else Parts(if IsPart(ops[0]) then open + RequestLine(WriteOf(ops[0]).0)[..ops[0].w.after] else [], ops[1..])
  }

  lemma {:induction false} RunCounts(p: Peer, s: State, ops: seq<Op>)
    requires Alive(s) && !Run(p, s, ops).closed
    ensures var t := Run(p, s, ops);
            t.link.strays == s.link.strays + Strays(ops) && Rest(t.link.wire) == Parts(Rest(s.link.wire), ops)
    decreases |ops|
  {
    hide Lines, Rest, Body, RequestLine, ReadAnswer, Said, Written;
    if ops != [] {
      var t := OpNext(p, s, ops[0]);
      OpAlive(p, s, ops[0]);
      RunAlive(p, t, ops[1..]);
      RunCounts(p, t, ops[1..]);
      WrittenLines(s.link, WriteOf(ops[0]).0, ops[0].w);
    }
  }

  /** The same in terms of what happened to the writes before: a call is answered with the response
      to its own request if and only if no failed write reached the peer whole, and none left a part
      behind that a later line has not ended. */
  lemma OwnResponseIff(p: Peer, hello: ReadChoice, ops: seq<Op>, fields: Request, w: WriteChoice, r: ReadChoice)
    ensures var s := Run(p, Opened(p, FRESH, hello), ops);
            CallNext(p, s, fields, w, r).1.Reply? ==>
              (OwnLine(s.link.wire, fields, s.link.taken) <==> Strays(ops) == 0 && Parts([], ops) == [])
  {
    hide RequestLine, ReadAnswer, Said, Opened, Run, OwnLine, Written, Lines, Strays, Parts;
    var s := Run(p, Opened(p, FRESH, hello), ops);
    if CallNext(p, s, fields, w, r).1.Reply? {
      WhichResponse(p, hello, ops, fields, w, r);
      OpensInStep(p, hello);
      OpenedEmpty(p, hello);
      RunCounts(p, Opened(p, FRESH, hello), ops);
    }
  }

  lemma OpenedEmpty(p: Peer, hello: ReadChoice)
    ensures var s := Opened(p, FRESH, hello); s.link.wire == [] && s.link.strays == 0 && Rest(s.link.wire) == []
  {
    hide DecodeHello;
  }

  /** No failed write sends anything. */
  predicate Clean(ops: seq<Op>) { forall k :: 0 <= k < |ops| && ops[k].w.WriteFails? ==> ops[k].w.after == 0 }

  lemma {:induction false} CleanCounts(ops: seq<Op>)
    requires Clean(ops)
    ensures Strays(ops) == 0 && Parts([], ops) == []
  {
    hide RequestLine;
    if ops != [] {
      CleanCounts(ops[1..]);
      LineNotEmpty(WriteOf(ops[0]).0);
      assert forall line: seq<Byte> :: [] + line[..0] == [];
    }
  }

  lemma LineNotEmpty(fields: Request)
    ensures |RequestLine(fields)| > 0
  {
  }

  /** If failed writes send nothing, every response is the peer's answer to the call's own request,
      in every run. */
  lemma OwnResponses(p: Peer, hello: ReadChoice, ops: seq<Op>, fields: Request, w: WriteChoice, r: ReadChoice)
    requires Clean(ops)
    ensures var s := Run(p, Opened(p, FRESH, hello), ops);
            var result := CallNext(p, s, fields, w, r).1;
            result.Reply? ==> result.answer == ReadAnswer(p.respond(|Lines(s.link.wire)|, Body(fields)))
  {
    hide RequestLine, ReadAnswer, Opened, Run, Written, Lines, Strays, Parts, Body;
    CleanCounts(ops);
    OwnResponseIff(p, hello, ops, fields, w, r);
    WhichResponse(p, hello, ops, fields, w, r);
  }

  /** Without that assumption it is false: the peer gets the first request whole, its write fails all
      the same, and the second call is given the answer to the first. */
  lemma StaleResponse(p: Peer, first: Request, second: Request, r: ReadChoice)
    requires DecodeHello(p.hello) == Some(PROTOCOL)
    ensures var ops := [Call(first, WriteFails(|RequestLine(first)|), r)];
            var s := Run(p, Opened(p, FRESH, GetsLine), ops);
            CallNext(p, s, second, WriteOk, GetsLine).1 == Reply(ReadAnswer(p.respond(0, Body(first))))
  {
    hide RequestLine, ReadAnswer, DecodeHello, Lines, Rest, Body;
    var start := Opened(p, FRESH, GetsLine);
    var op := Call(first, WriteFails(|RequestLine(first)|), r);
    assert Run(p, start, [op]) == OpNext(p, start, op) by { assert [op][1..] == []; }
    OpenedEmpty(p, GetsLine);
    assert Lines([]) == [] by { OpensInStep(p, GetsLine); }
    var s := OpNext(p, start, op);
    assert s.link.wire == [] + RequestLine(first);
    OneLineMore([], first);
    OneLineMore(s.link.wire, second);
    assert [] + Body(first) == Body(first);
  }

  /** Why a timeout has to close: if the session stayed open, the next call would be given the
      response that came too late. */
  lemma WhyTimeoutCloses(p: Peer, s: State, first: Request, second: Request)
    requires !s.closed && InStep(s) && s.link.terminal.None? && s.link.strays == 0 && Rest(s.link.wire) == []
    ensures var (t, result) := CallNext(p, s, first, WriteOk, TimesOut);
            && result == CallTimeout && t == State(ClosedLink(Written(s.link, RequestLine(first), WriteOk)), true)
    ensures var open := State(Written(s.link, RequestLine(first), WriteOk), false);
            CallNext(p, open, second, WriteOk, GetsLine).1 ==
              Reply(ReadAnswer(p.respond(|Lines(s.link.wire)|, Body(first))))
  {
    hide RequestLine, ReadAnswer, Lines, Rest, Body;
    var l := Written(s.link, RequestLine(first), WriteOk);
    OneLineMore(s.link.wire, first);
    OneLineMore(l.wire, second);
    assert [] + Body(first) == Body(first);
  }

  /** Closing reads the response to the close request, when there is one: then no line of the peer is
      left unread. */
  lemma CloseDrains(p: Peer, hello: ReadChoice, ops: seq<Op>)
    ensures var s := Run(p, Opened(p, FRESH, hello), ops);
            var t := CloseNext(p, s, WriteOk, GetsLine);
            !s.closed && s.link.terminal.None? && Strays(ops) == 0 ==> t.link.taken == |Lines(t.link.wire)| + 1
  {
    hide RequestLine, Opened, Run, Written, Lines, Strays, Parts;
    var s := Run(p, Opened(p, FRESH, hello), ops);
    OpensInStep(p, hello);
    RunInStep(p, Opened(p, FRESH, hello), ops);
    if !s.closed {
      OpenedEmpty(p, hello);
      RunCounts(p, Opened(p, FRESH, hello), ops);
      WrittenLines(s.link, CLOSE_FIELDS, WriteOk);
      WrittenKeeps(s.link, RequestLine(CLOSE_FIELDS), WriteOk);
    }
  }

  //
  // The session itself
  //

  /** Any transport. */
  class Transport {
    const peer: Peer
    var link: Link

    constructor (peer: Peer)
      ensures this.peer == peer && link == FRESH
    {
      this.peer, link := peer, FRESH;
    }

    method WriteLine(line: seq<Byte>, w: WriteChoice) returns (ok: bool)
      modifies this
      ensures link == Written(old(link), line, w) && ok == w.WriteOk?
    {
      link := Written(link, line, w);
      ok := w.WriteOk?;
    }

    method ReadLine(r: ReadChoice) returns (result: ReadResult)
      modifies this
      ensures (link, result) == ReadOnce(peer, old(link), r)
    {
      var (l, got) := ReadOnce(peer, link, r);
      link, result := l, got;
    }

    method Close()
      modifies this
      ensures link == ClosedLink(old(link))
    {
      link := ClosedLink(link);
    }
  }

  class Session {
    const transport: Transport
    var closed: bool

    function View(): State reads this, transport { State(transport.link, closed) }

    constructor (transport: Transport)
      ensures this.transport == transport && !closed
    {
      this.transport, closed := transport, false;
    }

    /** `Session::new`. */
    static method New(transport: Transport, r: ReadChoice) returns (session: Option<Session>)
      modifies transport
      ensures State(transport.link, session.None?) == Opened(transport.peer, old(transport.link), r)
      ensures session.Some? ==>
                fresh(session.value) && session.value.transport == transport && !session.value.closed
    {
      hide RequestLine, DecodeHello;
      var line := transport.ReadLine(r);
      if !line.GotLine? {
        transport.Close();
        return None;
      }
      var hello := DecodeHello(line.line);
      if hello.None? {
        transport.Close();
        return None;
      }
      if hello.value != PROTOCOL {
        transport.Close();
        return None;
      }
      var s := new Session(transport);
      session := Some(s);
    }

    /** `call`. */
    method Call(fields: Request, w: WriteChoice, r: ReadChoice) returns (result: CallResult)
      modifies this, transport
      ensures (View(), result) == CallNext(transport.peer, old(View()), fields, w, r)
    {
      hide RequestLine, Said, Written, ReadAnswer;
      if closed {
        return WasClosed;
      }
      var request := EncodeRequestLine(fields);
      var ok := transport.WriteLine(request, w);
      if !ok {
        return NotWritten;
      }
      var line := transport.ReadLine(r);
      match line
      case ReadTimeout =>
        closed := true;
        transport.Close();
        return CallTimeout;
      case ReadError(e) => return NotRead(e);
      case GotLine(bytes) => return Reply(ReadAnswer(bytes));
    }

    /** `close`, and `drop`. */
    method Close(w: WriteChoice, r: ReadChoice)
      modifies this, transport
      ensures View() == CloseNext(transport.peer, old(View()), w, r)
    {
      hide RequestLine, Said, Written;
      if closed {
        return;
      }
      closed := true;
      var request := EncodeRequestLine(CLOSE_FIELDS);
      var sent := transport.WriteLine(request, w);
      if sent {
        var _ := transport.ReadLine(r);
      }
      transport.Close();
    }
  }

  /** A whole life of a session, from the fresh transport to `drop`. */
  method Live(peer: Peer, hello: ReadChoice, ops: seq<Op>, w: WriteChoice, r: ReadChoice) returns (transport: Transport)
    ensures transport.link == CloseNext(peer, Run(peer, Opened(peer, FRESH, hello), ops), w, r).link
    ensures transport.link.closes == 1 && transport.link.late == 0
  {
    hide CallNext, CloseNext, Opened;
    ClosedOnce(peer, hello, ops, w, r);
    transport := new Transport(peer);
    var session := Session.New(transport, hello);
    if session.None? {
      OpensInStep(peer, hello);
      RunAlive(peer, Opened(peer, FRESH, hello), ops);
      OpAlive(peer, Opened(peer, FRESH, hello), CloseOp(w, r));
      return;
    }
    var s := session.value;
    for i := 0 to |ops|
      invariant s.transport == transport && transport.peer == peer
      invariant Run(peer, s.View(), ops[i..]) == Run(peer, Opened(peer, FRESH, hello), ops)
    {
      assert ops[i..][1..] == ops[i + 1..] && ops[i..][0] == ops[i];
      match ops[i]
      case Call(fields, w', r') => var _ := s.Call(fields, w', r');
      case CloseOp(w', r') => s.Close(w', r');
    }
    s.Close(w, r);
  }
}
