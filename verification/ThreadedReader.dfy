/** `ThreadedReader` of rust/src/transport/reader.rs: a reader thread, a channel with one slot and a
    caller, as one system that takes a step of any party at a time. */
module ThreadedReader {
  import opened Encoding
  import opened Framing
  import opened Outcomes

  /** Where the thread is in its loops. */
  datatype Mode = Reading | Draining | Sending(item: Event) | Exited

  datatype State = State(
    input: seq<Read>,           // what the source will still give the thread
    buf: seq<Byte>,             // the thread's framer
    mode: Mode,
    slot: Option<Event>,        // the channel
    receiverAlive: bool,
    waiting: bool,              // the caller is inside `read_line`
    terminal: Option<Error>,    // the caller's memo
    received: seq<Event>,       // what the caller took out of the channel
    outcomes: seq<Outcome>)     // what its `read_line` calls returned

  datatype Step =
    | ThreadRead | ThreadTake | ThreadSend
    | CallReadLine | Receive | Disconnected | WakeEarly | Expire
    | DropReceiver

  function Init(input: seq<Read>): State {
    State(input, [], Reading, None, true, false, None, [], [])
  }

  predicate Enabled(s: State, step: Step) {
    match step
    case ThreadRead => s.mode.Reading? && s.input != []
    case ThreadTake => s.mode.Draining?
    case ThreadSend => s.mode.Sending? && (s.slot.None? || !s.receiverAlive)
    case CallReadLine => s.receiverAlive && !s.waiting
    case Receive => s.waiting && s.slot.Some?
    case Disconnected => s.waiting && s.slot.None? && s.mode.Exited?
    case WakeEarly => s.waiting
    case Expire => s.waiting
    case DropReceiver => s.receiverAlive && !s.waiting
  }

  function Next(s: State, step: Step): State
    requires Enabled(s, step)
  {
    match step
    case ThreadRead =>
      (match s.input[0]
       case Chunk(c) => s.(input := s.input[1..], buf := s.buf + c, mode := Draining)
       case AtEof => s.(input := s.input[1..], mode := Sending(End(Eof)))
       case Failed(kind) => s.(input := s.input[1..], mode := Sending(End(Io(kind)))))
    case ThreadTake =>
      (match Take(s.buf)
       case Took(line, rest) => s.(buf := rest, mode := Sending(Line(line)))
       case More => s.(mode := Reading)
       case Overflow => s.(mode := Sending(End(LineTooLong))))
    case ThreadSend =>
      if !s.receiverAlive then s.(mode := Exited)
      else s.(slot := Some(s.mode.item), mode := if s.mode.item.Line? then Draining else Exited)
    case CallReadLine =>
      if s.terminal.Some? then s.(outcomes := s.outcomes + [Got(End(s.terminal.value))]) else s.(waiting := true)
    case Receive =>
      var e := s.slot.value;
      s.(slot := None, waiting := false, received := s.received + [e], outcomes := s.outcomes + [Got(e)],
         terminal := if e.End? then Some(e.error) else s.terminal)
    case Disconnected =>
      s.(waiting := false, terminal := Some(ReaderGone), outcomes := s.outcomes + [Got(End(ReaderGone))])
    case WakeEarly => s
    case Expire => s.(waiting := false, outcomes := s.outcomes + [TimeoutError])
    case DropReceiver => s.(receiverAlive := false, slot := None)
  }

  /** A run: any interleaving; a step that is not possible does nothing. */
  function Run(s: State, steps: seq<Step>): State
    decreases |steps|
  {
    if steps == [] then s
    else Run(if Enabled(s, steps[0]) then Next(s, steps[0]) else s, steps[1..])
  }

  //
  // What every step keeps
  //

  function InSlot(s: State): seq<Event> { if s.slot.Some? then [s.slot.value] else [] }

  function InSend(s: State): seq<Event> { if s.mode.Sending? then [s.mode.item] else [] }

  /** What the thread will still produce. */
  function ToCome(s: State): seq<Event> {
    if s.mode.Exited? || (s.mode.Sending? && s.mode.item.End?) then [] else Pending(s.buf, s.input)
  }

  /** While the receiver lives, nothing is lost, duplicated or reordered; once it is gone, what was
      received was the beginning. */
  ghost predicate Conserved(s: State, all: seq<Event>) {
    if s.receiverAlive then s.received + InSlot(s) + InSend(s) + ToCome(s) == all
    else s.received <= all
  }

  /** The terminal error is received last, remembered, and the thread never leaves without one. */
  ghost predicate Ended(s: State) {
    && (s.mode.Reading? ==> Take(s.buf) == More)
    && (forall k :: 0 <= k < |s.received| ==> (s.received[k].End? <==> k == |s.received| - 1 && s.terminal.Some?))
    && (s.terminal.Some? ==> s.received != [] && s.received[|s.received| - 1] == End(s.terminal.value))
    && (s.terminal.Some? ==> s.mode.Exited? && s.slot.None? && !s.waiting)
    && (s.receiverAlive ==>
          && (s.mode.Exited? <==> s.terminal.Some? || (s.slot.Some? && s.slot.value.End?)))
    && (!s.receiverAlive ==> s.slot.None? && !s.waiting)
  }

  /** The calls that did not time out returned what was received, and then only the terminal error. */
  ghost predicate Reported(s: State) {
    var es := Events(s.outcomes);
    && s.received <= es
    && (|es| > |s.received| ==> s.terminal.Some?)
    && forall k :: |s.received| <= k < |es| ==> es[k] == End(s.terminal.value)
  }

  ghost predicate Inv(s: State, all: seq<Event>) { Conserved(s, all) && Ended(s) && Reported(s) }

  /** A step of the thread moves the next event on: from the source to the send, from the send to the slot. */
  lemma ThreadConserves(s: State, step: Step, all: seq<Event>)
    requires Enabled(s, step) && Conserved(s, all) && (s.mode.Reading? ==> Take(s.buf) == More)
    requires step.ThreadTake? || step.ThreadRead? || step.ThreadSend?
    ensures Conserved(Next(s, step), all)
  {
    hide Pending, Take;
    PendingSplit(s.buf, s.input);
    var t := Next(s, step);
    if s.receiverAlive {
      match step
      case ThreadTake => Slide(s.received + InSlot(s), InSend(t), ToCome(t));
      case ThreadRead => Slide(s.received + InSlot(s), InSend(t), ToCome(t));
      case ThreadSend => Slide(s.received, InSlot(t), ToCome(t));
    }
  }

  lemma CallerConserves(s: State, step: Step, all: seq<Event>)
    requires Enabled(s, step) && Conserved(s, all) && Ended(s)
    requires !step.ThreadTake? && !step.ThreadRead? && !step.ThreadSend?
    ensures Conserved(Next(s, step), all)
  {
    hide Pending, Take;
    var t := Next(s, step);
    match step
    case Receive => Slide(s.received, InSlot(s), InSend(s) + ToCome(s));
      assert s.received + InSlot(s) + InSend(s) + ToCome(s) == t.received + [] + InSend(t) + ToCome(t);
    case DropReceiver =>
      assert s.received + InSlot(s) + InSend(s) + ToCome(s) == s.received + (InSlot(s) + InSend(s) + ToCome(s));
    case _ =>
  }

  lemma StepConserves(s: State, step: Step, all: seq<Event>)
    requires Enabled(s, step) && Conserved(s, all) && Ended(s)
    ensures Conserved(Next(s, step), all)
  {
    hide Conserved, Next;
    if step.ThreadTake? || step.ThreadRead? || step.ThreadSend? {
      ThreadConserves(s, step, all);
    } else {
      CallerConserves(s, step, all);
    }
  }

  lemma Slide(a: seq<Event>, b: seq<Event>, c: seq<Event>)
    ensures a + [] + (b + c) == a + b + c && a + b + [] + c == a + b + c && a + [] + b + c == a + b + c
  {
  }

  lemma PendingSplit(buf: seq<Byte>, input: seq<Read>)
    ensures var t := Take(buf);
            && (t.Took? ==> Pending(buf, input) == [Line(t.line)] + Pending(t.rest, input))
            && (t.Overflow? ==> Pending(buf, input) == [End(LineTooLong)])
            && (t.More? && input != [] ==>
                  && (input[0].Chunk? ==> Pending(buf, input) == Pending(buf + input[0].bytes, input[1..]))
                  && (input[0].AtEof? ==> Pending(buf, input) == [End(Eof)])
                  && (input[0].Failed? ==> Pending(buf, input) == [End(Io(input[0].kind))]))
  {
  }

  lemma StepEnds(s: State, step: Step)
    requires Enabled(s, step) && Ended(s)
    ensures Ended(Next(s, step))
    ensures step != Disconnected
  {
    hide Take;
  }

  lemma StepReports(s: State, step: Step)
    requires Enabled(s, step) && Ended(s) && Reported(s)
    ensures Reported(Next(s, step))
  {
    hide Take, Events;
    StepEnds(s, step);
    var t := Next(s, step);
    if t.outcomes != s.outcomes {
      EventsPush(s.outcomes, t.outcomes[|s.outcomes|]);
      if step == Receive {
        assert Events(s.outcomes) == s.received;
      }
    }
  }

  lemma {:induction false} RunInv(s: State, steps: seq<Step>, all: seq<Event>)
    requires Inv(s, all)
    ensures Inv(Run(s, steps), all)
    decreases |steps|
  {
    hide Conserved, Ended, Reported, Enabled, Next;
    if steps != [] {
      if Enabled(s, steps[0]) {
        StepConserves(s, steps[0], all);
        StepEnds(s, steps[0]);
        StepReports(s, steps[0]);
        RunInv(Next(s, steps[0]), steps[1..], all);
      } else {
        RunInv(s, steps[1..], all);
      }
    }
  }

  lemma InitInv(input: seq<Read>)
    ensures Inv(Init(input), Pending([], input))
  {
    TakeRest([]);
  }

  /** For every source and every interleaving: what was received, the slot, the blocked send and what
      is still to come make up the events of the source, in order; the terminal error comes last and
      every later call returns it; "reader gone" is never reported. */
  lemma EveryRun(input: seq<Read>, steps: seq<Step>)
    ensures var s := Run(Init(input), steps);
            && Inv(s, Pending([], input))
            && !Enabled(s, Disconnected)
            && (s.receiverAlive ==> s.received <= Pending([], input))
  {
    InitInv(input);
    RunInv(Init(input), steps, Pending([], input));
    InvGives(Run(Init(input), steps), Pending([], input));
  }

  lemma InvGives(s: State, all: seq<Event>)
    requires Inv(s, all)
    ensures !Enabled(s, Disconnected) && (s.receiverAlive ==> s.received <= all)
  {
    hide Reported;
    if Enabled(s, Disconnected) {
      StepEnds(s, Disconnected);
    }
    if s.receiverAlive {
      Prefix(s.received, InSlot(s), InSend(s), ToCome(s));
    }
  }

  lemma Prefix(a: seq<Event>, b: seq<Event>, c: seq<Event>, d: seq<Event>)
    ensures a <= a + b + c + d
  {
    assert a + b + c + d == a + (b + c + d);
  }

  /** The calls of a run report a beginning of the events of the source, and if one of them reports
      an end, they have reported all of it. */
  lemma RunReports(input: seq<Read>, steps: seq<Step>)
    ensures Reports(Pending([], input), Events(Run(Init(input), steps).outcomes))
  {
    EveryRun(input, steps);
    var s := Run(Init(input), steps);
    var all := Pending([], input);
    var n := |s.received|;
    if s.terminal.Some? {
      assert all[n - 1] == s.received[n - 1];
      EndIsLast([], input, n - 1);
      assert s.received == all;
    } else {
      assert Events(s.outcomes) == s.received;
    }
  }

  /** The two never wait for each other: while the caller waits, either there is something to receive,
      or the thread can go on, or the source itself has nothing to give. */
  lemma NoDeadlock(input: seq<Read>, steps: seq<Step>)
    ensures var s := Run(Init(input), steps);
            s.waiting ==>
              || Enabled(s, Receive)
              || (!s.mode.Exited? && Enabled(s, ThreadStep(s)))
              || (s.mode.Reading? && s.input == [] && s.received == Pending([], input))
  {
    hide Pending, Take, Run, Reported;
    EveryRun(input, steps);
    var s := Run(Init(input), steps);
    if s.waiting && s.slot.None? && s.mode.Reading? && s.input == [] {
      PendingStep(s.buf, []);
      assert s.received + [] + [] + [] == s.received;
    }
  }

  //
  // Every call is answered, and every event arrives
  //

  lemma {:induction false} RunCat(s: State, a: seq<Step>, b: seq<Step>)
    ensures Run(s, a + b) == Run(Run(s, a), b)
    decreases |a|
  {
    hide Enabled, Next;
    if a == [] {
      assert a + b == b;
    } else {
      assert (a + b)[0] == a[0] && (a + b)[1..] == a[1..] + b;
      RunCat(if Enabled(s, a[0]) then Next(s, a[0]) else s, a[1..], b);
    }
  }

  /** How many `read_line` calls are made in a run. */
  function Calls(s: State, steps: seq<Step>): nat
    decreases |steps|
  {
    if steps == [] then 0
    else
      var now := Enabled(s, steps[0]);
      Calls(if now then Next(s, steps[0]) else s, steps[1..]) + if now && steps[0] == CallReadLine then 1 else 0
  }

  /** Every call has returned once, but for the one that waits. */
  lemma {:induction false} CallsAnswered(s: State, steps: seq<Step>)
    ensures var t := Run(s, steps);
            |t.outcomes| + (if t.waiting then 1 else 0)
              == |s.outcomes| + (if s.waiting then 1 else 0) + Calls(s, steps)
    decreases |steps|
  {
    hide Take;
    if steps != [] {
      CallsAnswered(if Enabled(s, steps[0]) then Next(s, steps[0]) else s, steps[1..]);
    }
  }

  /** In every run a call can be made while the receiver lives and no other call waits. After the end
      it returns the last event of the source again; before, it waits, and from then on it may return
      what is in the slot, or run out of time, and nothing else. */
  lemma CallReturns(input: seq<Read>, steps: seq<Step>)
    ensures var all := Pending([], input);
            var s := Run(Init(input), steps);
            var called := Run(Init(input), steps + [CallReadLine]);
            var received := Run(Init(input), steps + [Receive]);
            var expired := Run(Init(input), steps + [Expire]);
            && (s.receiverAlive && !s.waiting && s.terminal.Some? ==>
                  all != [] && all[|all| - 1].End? && called.outcomes == s.outcomes + [Got(all[|all| - 1])])
            && (s.receiverAlive && !s.waiting && s.terminal.None? ==>
                  called.waiting && called.outcomes == s.outcomes)
            && (s.waiting ==>
                  && !expired.waiting && expired.outcomes == s.outcomes + [TimeoutError]
                  && expired.received == s.received && expired.slot == s.slot)
            && (s.waiting && s.slot.Some? ==>
                  && !received.waiting && received.outcomes == s.outcomes + [Got(s.slot.value)]
                  && received.received == s.received + [s.slot.value] && received.slot.None?)
  {
    hide Pending, Take, Conserved, Reported;
    var s := Run(Init(input), steps);
    RunCat(Init(input), steps, [CallReadLine]);
    RunCat(Init(input), steps, [Receive]);
    RunCat(Init(input), steps, [Expire]);
    OneStep(s, CallReadLine);
    OneStep(s, Receive);
    OneStep(s, Expire);
    EveryRun(input, steps);
    if s.receiverAlive && s.terminal.Some? {
      EndReceived(input, s);
    }
  }

  lemma OneStep(s: State, step: Step)
    ensures Run(s, [step]) == if Enabled(s, step) then Next(s, step) else s
  {
    assert [step][1..] == [];
  }

  lemma EndReceived(input: seq<Read>, s: State)
    requires Conserved(s, Pending([], input)) && Ended(s) && s.receiverAlive && s.terminal.Some?
    ensures var all := Pending([], input); all != [] && all[|all| - 1] == End(s.terminal.value)
  {
    hide Pending;
  }

  /** From every state of a run with its receiver, the thread and the caller can go on so that all the
      events of the source are received. */
  lemma EverythingArrives(input: seq<Read>, steps: seq<Step>) returns (more: seq<Step>)
    requires Run(Init(input), steps).receiverAlive
    ensures Run(Init(input), steps + more).received == Pending([], input)
  {
    EveryRun(input, steps);
    more := Arrive(Run(Init(input), steps), Pending([], input));
    RunCat(Init(input), steps, more);
  }

  lemma {:induction false} Arrive(s: State, all: seq<Event>) returns (more: seq<Step>)
    requires s.receiverAlive && Inv(s, all)
    ensures Run(s, more).received == all
    decreases |all| - |s.received|, Measure(s), if s.waiting then 0 else 1
  {
    hide Pending, Take, Conserved, Ended, Reported, Measure, Run;
    Facts(s, all);
    if s.slot.Some? {
      var step := if s.waiting then Receive else CallReadLine;
      var t := Next(s, step);
      StepConserves(s, step, all);
      StepEnds(s, step);
      StepReports(s, step);
      Facts(t, all);
      SameMeasure(s, t);
      more := Arrive(t, all);
      Runs(s, step, more);
      more := [step] + more;
    } else if s.mode.Exited? || (s.mode.Reading? && s.input == []) {
      more := [];
      Stays(s);
    } else {
      var step := ThreadStep(s);
      var t := Next(s, step);
      Quicker(s);
      StepConserves(s, step, all);
      StepEnds(s, step);
      StepReports(s, step);
      more := Arrive(t, all);
      Runs(s, step, more);
      more := [step] + more;
    }
  }

  lemma Facts(s: State, all: seq<Event>)
    requires s.receiverAlive && Conserved(s, all) && Ended(s)
    ensures |s.received| <= |all|
    ensures s.slot.Some? ==> |s.received| < |all| && s.terminal.None?
    ensures s.slot.None? && (s.mode.Exited? || (s.mode.Reading? && s.input == [])) ==> s.received == all
  {
    hide Take, Pending;
    if s.mode.Reading? && s.input == [] {
      PendingStep(s.buf, []);
    }
    if s.slot.None? && (s.mode.Exited? || (s.mode.Reading? && s.input == [])) {
      assert s.received + [] + [] + [] == s.received;
    }
  }

  lemma SameMeasure(s: State, t: State)
    requires t.mode == s.mode && t.input == s.input && t.buf == s.buf
    ensures Measure(t) == Measure(s)
  {
  }

  lemma Stays(s: State)
    ensures Run(s, []) == s
  {
  }

  lemma Runs(s: State, step: Step, more: seq<Step>)
    requires Enabled(s, step)
    ensures Run(s, [step] + more) == Run(Next(s, step), more)
  {
    assert ([step] + more)[1..] == more;
  }

  /** A step of the thread brings it nearer its exit or the end of the input. */
  lemma Quicker(s: State)
    requires !s.mode.Exited? && Enabled(s, ThreadStep(s))
    ensures var t := Next(s, ThreadStep(s));
            Measure(t) < Measure(s) && t.receiverAlive == s.receiverAlive && t.received == s.received
  {
    hide Take;
  }

  //
  // The reader, seen from its caller
  //

  function SeenBy(s: State): View { View(InSlot(s) + InSend(s) + ToCome(s), s.terminal) }

  /** A step in which a call returns delivers what that call returned; the caller cannot see any other. */
  lemma StepSeen(s: State, step: Step)
    requires Enabled(s, step) && Ended(s) && s.receiverAlive && step != DropReceiver
    ensures var t := Next(s, step);
            if t.outcomes == s.outcomes then SeenBy(t) == SeenBy(s)
            else
              && t.outcomes == s.outcomes + [t.outcomes[|s.outcomes|]]
              && Delivers(SeenBy(s), t.outcomes[|s.outcomes|], SeenBy(t))
  {
    hide Pending, Take;
    var t := Next(s, step);
    var a, b := SeenBy(s).coming, SeenBy(t).coming;
    Whole(s);
    StepConserves(s, step, s.received + a);
    StepEnds(s, step);
    Whole(t);
    if step == Receive {
      Cancel(s.received, a, [s.slot.value] + b);
      assert s.received + ([s.slot.value] + b) == t.received + b;
    } else {
      Cancel(s.received, a, b);
    }
  }

  lemma Whole(s: State)
    ensures s.received + InSlot(s) + InSend(s) + ToCome(s) == s.received + SeenBy(s).coming
  {
    hide ToCome;
  }

  lemma Cancel(r: seq<Event>, a: seq<Event>, b: seq<Event>)
    requires r + a == r + b
    ensures a == b
  {
    assert (r + a)[|r|..] == a && (r + b)[|r|..] == b;
  }

  lemma {:induction false} RunSeen(v: View, s: State, steps: seq<Step>)
    requires Ended(s) && s.receiverAlive && DropReceiver !in steps && Reads(v, s.outcomes, SeenBy(s))
    ensures Reads(v, Run(s, steps).outcomes, SeenBy(Run(s, steps)))
    decreases |steps|
  {
    hide Ended, Enabled, Next, Reads, Delivers, SeenBy;
    if steps != [] {
      var step := steps[0];
      assert step in steps && forall k :: 0 <= k < |steps[1..]| ==> steps[1..][k] in steps;
      if Enabled(s, step) {
        var t := Next(s, step);
        StepSeen(s, step);
        StepEnds(s, step);
        StaysAlive(s, step);
        if t.outcomes != s.outcomes {
          ReadsPush(v, s.outcomes, SeenBy(s), t.outcomes[|s.outcomes|], SeenBy(t));
        }
        RunSeen(v, t, steps[1..]);
      } else {
        RunSeen(v, s, steps[1..]);
      }
    }
  }

  lemma StaysAlive(s: State, step: Step)
    requires Enabled(s, step) && s.receiverAlive && step != DropReceiver
    ensures Next(s, step).receiverAlive
  {
  }

  /** So its calls, in every interleaving, are those of a reader of the events of the source. */
  lemma RunReads(input: seq<Read>, steps: seq<Step>)
    requires DropReceiver !in steps
    ensures var s := Run(Init(input), steps); Reads(View(Pending([], input), None), s.outcomes, SeenBy(s))
  {
    InitInv(input);
    assert SeenBy(Init(input)) == View(Pending([], input), None);
    RunSeen(View(Pending([], input), None), Init(input), steps);
  }

  //
  // How the thread ends
  //

  function Size(input: seq<Read>): nat {
    if input == [] then 0
    else Size(input[1..]) + 1 + if input[0].Chunk? then |input[0].bytes| else 0
  }

  /** Every step of the thread makes this smaller. */
  function Measure(s: State): nat {
    match s.mode
    case Exited => 0
    case Sending(e) => if e.End? then 1 else 4 * (Size(s.input) + |s.buf|) + 3
    case Draining => 4 * (Size(s.input) + |s.buf|) + 2
    case Reading => 4 * (Size(s.input) + |s.buf|) + 1
  }

  /** The step the thread is about to take. */
  function ThreadStep(s: State): Step
    requires !s.mode.Exited?
  {
    match s.mode
    case Reading => ThreadRead
    case Draining => ThreadTake
    case Sending(_) => ThreadSend
  }

  /** The source still has an end to give: an end of file or an error. */
  predicate HasEnd(input: seq<Read>) { exists k :: 0 <= k < |input| && !input[k].Chunk? }

  ghost predicate WillEnd(s: State) { s.mode.Exited? || (s.mode.Sending? && s.mode.item.End?) || HasEnd(s.input) }

  lemma ThreadProgress(s: State)
    requires !s.mode.Exited? && Enabled(s, ThreadStep(s)) && WillEnd(s)
    ensures var t := Next(s, ThreadStep(s));
            Measure(t) < Measure(s) && WillEnd(t) && t.receiverAlive == s.receiverAlive
  {
    hide Take;
    if s.mode.Reading? && s.input[0].Chunk? {
      var k :| 0 <= k < |s.input| && !s.input[k].Chunk?;
      assert s.input[1..][k - 1] == s.input[k];
    }
  }

  /** As long as the receiver is not dropped, a source with an end still leads the thread to an end. */
  lemma RunGoesOn(input: seq<Read>, steps: seq<Step>)
    requires HasEnd(input) && DropReceiver !in steps
    ensures var s := Run(Init(input), steps); s.receiverAlive && WillEnd(s)
  {
    GoesOn(Init(input), steps);
  }

  lemma {:induction false} GoesOn(s: State, steps: seq<Step>)
    requires s.receiverAlive && WillEnd(s) && DropReceiver !in steps
    ensures Run(s, steps).receiverAlive && WillEnd(Run(s, steps))
    decreases |steps|
  {
    hide Next, WillEnd;
    if steps != [] {
      var step := steps[0];
      assert step in steps && forall k :: 0 <= k < |steps[1..]| ==> steps[1..][k] in steps;
      if Enabled(s, step) {
        StaysAlive(s, step);
        StepWillEnd(s, step);
        GoesOn(Next(s, step), steps[1..]);
      } else {
        GoesOn(s, steps[1..]);
      }
    }
  }

  lemma StepWillEnd(s: State, step: Step)
    requires Enabled(s, step) && WillEnd(s)
    ensures WillEnd(Next(s, step))
  {
    hide Take, HasEnd;
    if !s.mode.Exited? && step == ThreadStep(s) {
      ThreadProgress(s);
    }
  }

  /** The thread alone, as far as it gets without the caller. */
  function ThreadRun(s: State, n: nat): State
    decreases n
  {
    if n == 0 || s.mode.Exited? || !Enabled(s, ThreadStep(s)) then s
    else ThreadRun(Next(s, ThreadStep(s)), n - 1)
  }

  /** Once the receiver is gone, the thread is never blocked: it leaves within a bounded number of
      its own steps, provided the source ends. */
  lemma {:induction false} ExitsAfterDrop(s: State, n: nat)
    requires !s.receiverAlive && WillEnd(s) && n >= Measure(s)
    ensures ThreadRun(s, n).mode.Exited?
    decreases n
  {
    hide Measure, Next, WillEnd;
    if !s.mode.Exited? {
      assert Enabled(s, ThreadStep(s)) by { NotBlocked(s); }
      ThreadProgress(s);
      ExitsAfterDrop(Next(s, ThreadStep(s)), n - 1);
    }
  }

  lemma NotBlocked(s: State)
    requires !s.receiverAlive && WillEnd(s) && !s.mode.Exited?
    ensures Enabled(s, ThreadStep(s)) && Measure(s) > 0
  {
  }

  /** With an empty slot and only the terminal error left to deliver, the thread leaves without the
      caller: the slot takes the error. */
  lemma {:induction false} ExitsAlone(s: State, n: nat)
    requires s.receiverAlive && s.slot.None? && Ended(s) && WillEnd(s) && n >= Measure(s)
    requires |InSend(s) + ToCome(s)| <= 1
    ensures ThreadRun(s, n).mode.Exited?
    decreases n
  {
    hide Measure, Pending, Take;
    if !s.mode.Exited? {
      AloneEnabled(s);
      ThreadProgress(s);
      var t := Next(s, ThreadStep(s));
      StepEnds(s, ThreadStep(s));
      PendingSplit(s.buf, s.input);
      if !s.mode.Sending? {
        ExitsAlone(t, n - 1);
      } else if s.mode.item.Line? {
        EndComes(s.buf, s.input);
      } else {
        assert ThreadRun(t, n - 1) == t;
      }
    }
  }

  lemma AloneEnabled(s: State)
    requires s.slot.None? && WillEnd(s) && !s.mode.Exited?
    ensures Enabled(s, ThreadStep(s)) && Measure(s) > 0
  {
  }

  /** A source that ends gives at least the end. */
  lemma {:induction false} EndComes(buf: seq<Byte>, input: seq<Read>)
    requires HasEnd(input)
    ensures |Pending(buf, input)| > 0
    decreases |input|
  {
    hide Take;
    if Take(buf).More? && input[0].Chunk? {
      var k :| 0 <= k < |input| && !input[k].Chunk?;
      assert input[1..][k - 1] == input[k];
      EndComes(buf + input[0].bytes, input[1..]);
    }
  }

  //
  // Bounded memory
  //

  ghost predicate Bounded(s: State, c: nat) {
    && (forall k :: 0 <= k < |s.input| && s.input[k].Chunk? ==> |s.input[k].bytes| <= c)
    && |s.buf| <= MAX_LINE_BYTES + c
    && (s.mode.Reading? ==> |s.buf| <= MAX_LINE_BYTES)
  }

  /** With chunks of at most `c` bytes the thread's buffer never exceeds the cap plus `c`. */
  lemma {:induction false} BufferBounded(s: State, steps: seq<Step>, c: nat)
    requires Bounded(s, c)
    ensures Bounded(Run(s, steps), c)
    decreases |steps|
  {
    hide Take;
    if steps != [] {
      if Enabled(s, steps[0]) {
        BufferBounded(Next(s, steps[0]), steps[1..], c);
      } else {
        BufferBounded(s, steps[1..], c);
      }
    }
  }
}
