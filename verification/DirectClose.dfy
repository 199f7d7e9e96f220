/** `DirectTransport::close` of rust/src/transport/direct.rs: the stages that end a child process, and
    what becomes of the reader thread. */
module DirectClose {
  import opened Encoding
  import opened Framing
  import T = ThreadedReader
  import S = Session
  import opened Outcomes
  import opened SessionReader

  datatype Status = Code(code: int) | Signaled(signal: nat)

  /** `exit_code_of`. */
  function ExitCodeOf(s: Status): int { if s.Code? then s.code else 0 - s.signal }

  datatype Exit = Exit(at: nat, status: Status)

  datatype Signal = Term | Kill

  const SIGKILL: nat := 9

  /** A child: when it is gone, if ever, as things are; what closing its stdin and what SIGTERM make
      of it, after a time; and the signals it was sent. */
  datatype Child = Child(exit: Option<Exit>, onEof: Option<Exit>, onTerm: Option<Exit>, signals: seq<Signal>)

  predicate Gone(c: Child, now: nat) { c.exit.Some? && c.exit.value.at <= now }

  function Sooner(a: Option<Exit>, b: Option<Exit>): Option<Exit> {
    if a.None? || (b.Some? && b.value.at < a.value.at) then b else a
  }

  function Delayed(now: nat, e: Option<Exit>): Option<Exit> {
    if e.None? then None else Some(Exit(now + e.value.at, e.value.status))
  }

  function StdinClosed(c: Child, now: nat): Child { c.(exit := Sooner(c.exit, Delayed(now, c.onEof))) }

  function Terminated(c: Child, now: nat): Child {
    c.(exit := Sooner(c.exit, Delayed(now, c.onTerm)), signals := c.signals + [Term])
  }

  /** SIGKILL cannot be ignored. */
  function Killed(c: Child, now: nat): Child {
    c.(exit := Sooner(c.exit, Some(Exit(now, Signaled(SIGKILL)))), signals := c.signals + [Kill])
  }

  /** The reader thread when its reader is dropped after `steps` more steps. */
  function Dropped(s: T.State, steps: nat): T.State
    requires s.receiverAlive && !s.waiting
  {
    ThreadRunKeeps(s, steps);
    T.Next(T.ThreadRun(s, steps), T.DropReceiver)
  }

  class DirectTransport {
    var child: Child
    var clock: nat
    var stdin: bool
    var reader: Option<T.State>
    var stderrThread: bool
    var exitCode: Option<int>
    var orphan: Option<T.State>     // the reader thread, once its reader is dropped

    predicate AlreadyClosed() reads this { !stdin && reader.None? && !stderrThread && exitCode.Some? }

    /** No call is inside `read_line`: `close` takes the transport for itself. */
    predicate Valid() reads this { reader.Some? ==> reader.value.receiverAlive && !reader.value.waiting }

    constructor (child: Child, reader: T.State, stderrThread: bool)
      requires reader.receiverAlive && !reader.waiting
      ensures Valid() && this.child == child && this.reader == Some(reader) && stdin && exitCode.None? && clock == 0
    {
      this.child, this.reader, this.stderrThread := child, Some(reader), stderrThread;
      clock, stdin, exitCode, orphan := 0, true, None, None;
    }

    /** `thread::sleep`: at least so long. */
    method Sleep(d: nat)
      modifies this`clock
      ensures clock >= old(clock) + d
    {
      var passed: nat :| passed >= d;
      clock := clock + passed;
    }

    /** `wait_bounded`: it gives up only when the deadline has passed and the child is still there. */
    method WaitBounded(deadline: nat) returns (s: Option<Status>)
      modifies this`clock
      ensures clock >= old(clock)
      ensures s.Some? <==> Gone(child, clock)
      ensures s.Some? ==> s.value == child.exit.value.status
      ensures s.None? ==> clock >= deadline
    {
      var backoff := 1;
      while true
        invariant clock >= old(clock) && 1 <= backoff <= 10
        decreases deadline - clock
      {
        if Gone(child, clock) {
          return Some(child.exit.value.status);
        }
        if clock >= deadline {
          return None;
        }
        Sleep(if backoff < deadline - clock then backoff else deadline - clock);
        backoff := if backoff * 2 < 10 then backoff * 2 else 10;
      }
    }

    /** The stages of `close`: stdin is closed already. */
    method EndChild(timeout: nat) returns (status: Status)
      modifies this`child, this`clock
      ensures Staged(old(child), old(clock), timeout, child, clock)
      ensures Gone(child, clock) && status == child.exit.value.status
    {
      hide Sooner, Delayed;
      child := StdinClosed(child, clock);
      ghost var start, eof := clock, child;
      var ended := WaitBounded(clock + timeout);
      if ended.Some? {
        return ended.value;
      }
      ghost var t := clock;
      child := Terminated(child, clock);
      ghost var term := child;
      ended := WaitBounded(clock + timeout);
      assert start + timeout <= t <= clock && !Gone(eof, t);
      if ended.Some? {
        return ended.value;
      }
      ghost var k := clock;
      child := Killed(child, clock);
      assert t + timeout <= k <= clock && !Gone(term, k);
      KilledIsGone(term, clock);
      status := child.exit.value.status;
    }

    /** `close`. While it waits for the reader thread, that thread takes `steps` steps.

        The child is gone and its exit code known; it got a signal only when it outstayed its time:
        none if closing stdin ended it in time, SIGKILL only after SIGTERM and another wait. The
        reader is gone, and its thread will not be blocked if its source ends. */
    method Close(timeout: nat, steps: nat)
      requires Valid()
      modifies this
      ensures Valid() && AlreadyClosed()
      ensures old(AlreadyClosed()) ==>
                && child == old(child) && clock == old(clock) && exitCode == old(exitCode) && orphan == old(orphan)
      ensures !old(AlreadyClosed()) ==>
                && Gone(child, clock) && Staged(old(child), old(clock), timeout, child, clock)
                && exitCode == Some(match child.exit.value.status case Code(c) => c case Signaled(n) => 0 - n)
      ensures old(reader).Some? ==>
                && orphan == Some(Dropped(old(reader).value, steps))
                && (T.WillEnd(old(reader).value) ==>
                      forall n: nat :: n >= T.Measure(orphan.value) ==> T.ThreadRun(orphan.value, n).mode.Exited?)
    {
      hide Staged, Gone;
      if !stdin && reader.None? && !stderrThread && exitCode.Some? {
        return;
      }
      stdin := false;
      var status := EndChild(timeout);
      exitCode := Some(ExitCodeOf(status));
      stderrThread := false;
      if reader.Some? {
        ThreadRunKeeps(reader.value, steps);
        orphan := Some(Dropped(reader.value, steps));
        reader := None;
        if T.WillEnd(old(reader).value) {
          forall n: nat | n >= T.Measure(orphan.value) ensures T.ThreadRun(orphan.value, n).mode.Exited? {
            T.ExitsAfterDrop(orphan.value, n);
          }
        }
      }
    }
  }

  /** How a child may be ended from `start` to `now`: by its closed stdin in time; else by SIGTERM in
      time; else by SIGKILL. */
  ghost predicate Staged(was: Child, start: nat, timeout: nat, child: Child, now: nat) {
    var eof := StdinClosed(was, start);
    || (child == eof && Gone(eof, now))
    || (&& !Gone(eof, start + timeout)
        && exists t :: start + timeout <= t <= now && !Gone(eof, t)
                       && var term := Terminated(eof, t);
                          || (child == term && Gone(term, now))
                          || (&& !Gone(term, t + timeout)
                              && exists k :: t + timeout <= k <= now && !Gone(term, k) && child == Killed(term, k)))
  }

  lemma KilledIsGone(c: Child, now: nat)
    ensures Gone(Killed(c, now), now)
  {
  }

  /** A child that goes in time when its stdin is closed, so long after that, gets no signal; one that goes only for SIGTERM,
      and in time, gets that; one that goes for neither is killed, by signal 9. */
  lemma StagedSignals(was: Child, start: nat, timeout: nat, child: Child, now: nat)
    requires Staged(was, start, timeout, child, now) && was.exit.None?
    ensures was.onEof.Some? && was.onEof.value.at <= timeout ==>
              && child.signals == was.signals
              && child.exit == Some(Exit(start + was.onEof.value.at, was.onEof.value.status))
    ensures was.onEof.None? && was.onTerm.Some? && was.onTerm.value.at <= timeout ==>
              child.signals == was.signals + [Term] && child.exit.value.status == was.onTerm.value.status
    ensures was.onEof.None? && was.onTerm.None? ==>
              child.signals == was.signals + [Term, Kill] && child.exit.value.status == Signaled(9)
  {
  }

  lemma {:induction false} ThreadRunKeeps(s: T.State, n: nat)
    ensures var t := T.ThreadRun(s, n);
            && t.receiverAlive == s.receiverAlive && t.waiting == s.waiting && t.received == s.received
            && t.terminal == s.terminal && (T.WillEnd(s) ==> T.WillEnd(t))
    decreases n
  {
    hide Take;
    if n > 0 && !s.mode.Exited? && T.Enabled(s, T.ThreadStep(s)) {
      if T.WillEnd(s) {
        T.ThreadProgress(s);
      }
      ThreadRunKeeps(T.Next(s, T.ThreadStep(s)), n - 1);
    }
  }

  lemma {:induction false} ThreadRunInv(s: T.State, n: nat, all: seq<Event>)
    requires T.Conserved(s, all) && T.Ended(s)
    ensures T.Conserved(T.ThreadRun(s, n), all) && T.Ended(T.ThreadRun(s, n))
    decreases n
  {
    hide Take, T.Conserved, T.Ended, T.Next;
    if n > 0 && !s.mode.Exited? && T.Enabled(s, T.ThreadStep(s)) {
      T.StepConserves(s, T.ThreadStep(s), all);
      T.StepEnds(s, T.ThreadStep(s));
      ThreadRunInv(T.Next(s, T.ThreadStep(s)), n - 1, all);
    }
  }

  /** In any reachable state, with nobody reading any more: the thread leaves by itself if and only if
      at most one event has not been received. */
  lemma ExitsIff(input: seq<Read>, steps: seq<T.Step>)
    ensures var all := Pending([], input);
            var s := T.Run(T.Init(input), steps);
            s.receiverAlive && T.WillEnd(s) ==>
              ((exists n: nat :: T.ThreadRun(s, n).mode.Exited?) <==> |all| <= |s.received| + 1)
  {
    hide T.Measure, Pending, Take, T.Run, T.Reported, T.WillEnd;
    var all := Pending([], input);
    var s := T.Run(T.Init(input), steps);
    T.EveryRun(input, steps);
    if s.receiverAlive && T.WillEnd(s) {
      assert |all| == |s.received| + |T.InSlot(s)| + |T.InSend(s) + T.ToCome(s)|;
      if |all| <= |s.received| + 1 {
        AloneLeaves(s, all);
        assert T.ThreadRun(s, T.Measure(s)).mode.Exited?;
      } else {
        forall n: nat ensures !T.ThreadRun(s, n).mode.Exited? {
          ThreadRunInv(s, n, all);
          ThreadRunKeeps(s, n);
        }
      }
    }
  }

  lemma AloneLeaves(s: T.State, all: seq<Event>)
    requires T.Conserved(s, all) && T.Ended(s) && s.receiverAlive && T.WillEnd(s)
    requires |all| <= |s.received| + 1
    ensures T.ThreadRun(s, T.Measure(s)).mode.Exited?
  {
    hide T.Measure, Pending, Take;
    if s.slot.None? {
      T.ExitsAlone(s, T.Measure(s));
    } else {
      assert |T.InSend(s) + T.ToCome(s)| == 0;
      if !s.mode.Exited? {
        T.EndComes(s.buf, s.input);
      }
      assert T.ThreadRun(s, T.Measure(s)) == s;
    }
  }

  /** A session whose failed writes sent nothing and that closed itself in order: it has read the
      response to its close request, so when the peer is gone the thread of its reader leaves without
      anybody reading. */
  lemma ClosedSessionLeaves(p: S.Peer, hello: S.ReadChoice, ops: seq<S.Op>, input: seq<Read>, steps: seq<T.Step>)
    requires var s := S.Run(p, S.Opened(p, S.FRESH, hello), ops);
             !s.closed && s.link.terminal.None? && S.Clean(ops)
    ensures var link := S.CloseNext(p, S.Run(p, S.Opened(p, S.FRESH, hello), ops), S.WriteOk, S.GetsLine).link;
            var t := T.Run(T.Init(input), steps);
            Pending([], input) == LineEvents(S.AllSaid(p, link.wire)) + [End(Eof)] && t.receiverAlive && T.WillEnd(t)
            && |t.received| == link.taken
            ==> exists n: nat :: T.ThreadRun(t, n).mode.Exited?
  {
    hide S.CloseNext, S.Run, S.Opened, T.Run, T.WillEnd, Pending, S.AllSaid;
    S.CleanCounts(ops);
    S.CloseDrains(p, hello, ops);
    ExitsIff(input, steps);
  }

  /** The same for a session on the threaded reader itself, whatever the interleaving and the chunks:
      once it closed itself in order, the thread leaves without anybody reading. */
  lemma ClosedOnReaderLeaves(p: S.Peer, open: seq<Byte>, chunks: seq<seq<Byte>>, steps: seq<T.Step>,
                             hello: Outcome, xs: seq<Given>, close: Given)
    requires close.op.CloseOp? && close.op.w == S.WriteOk && close.o.Got? && close.o.event.Line?
    requires !After(hello, xs).closed && After(hello, xs).link.terminal.None? && S.Clean(Chosen(xs))
    requires Speaks(S.AllSaid(p, After(hello, xs + [close]).link.wire), open, chunks, [AtEof])
    requires T.DropReceiver !in steps
    requires T.Run(T.Init(ChunkReads(chunks) + [AtEof]), steps).outcomes == Used(hello, xs + [close])
    ensures exists n: nat :: T.ThreadRun(T.Run(T.Init(ChunkReads(chunks) + [AtEof]), steps), n).mode.Exited?
  {
    hide T.Run, T.WillEnd, Reads, S.AllSaid, After, Used, Speaks, Chosen, S.Clean, Pending, T.Conserved, T.Ended, T.SeenBy;
    var input := ChunkReads(chunks) + [AtEof];
    var heard := S.AllSaid(p, After(hello, xs + [close]).link.wire);
    var t := T.Run(T.Init(input), steps);
    var end := Pending(open, [AtEof]);
    SpokenEvents(heard, open, chunks, [AtEof]);
    T.RunReads(input, steps);
    CloseReadsAll(p, heard, end, hello, xs, close, T.SeenBy(t));
    assert input[|ChunkReads(chunks)|] == AtEof;
    T.RunGoesOn(input, steps);
    T.EveryRun(input, steps);
    LeftOver(t, Pending([], input));
    ExitsIff(input, steps);
  }

  lemma LeftOver(t: T.State, all: seq<Event>)
    requires T.Conserved(t, all) && t.receiverAlive
    ensures |all| == |t.received| + |T.SeenBy(t).coming|
  {
    T.Whole(t);
  }
}
