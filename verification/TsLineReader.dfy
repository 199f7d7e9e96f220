/** Class `LineReader` of typescript/src/transport.ts: callbacks of a stream on one side, calls that
    may have to wait on the other. */
module TsLineReader {
  import opened Encoding
  import opened Framing
  import opened Outcomes

  /** How the promise of a call ends. */
  datatype How = Answered(event: Event) | TimedOut | Aborted

  datatype Settled = Settled(id: nat, how: How)

  //
  // The log of ended calls
  //

  function SettledIds(log: seq<Settled>): multiset<nat> {
    if log == [] then multiset{} else SettledIds(log[..|log| - 1]) + multiset{log[|log| - 1].id}
  }

  /** What the calls were told that neither timed out nor were aborted. */
  function Answers(log: seq<Settled>): seq<Event> {
    if log == [] then []
    else
      var last := log[|log| - 1];
      var before := Answers(log[..|log| - 1]);
      if last.how.Answered? then before + [last.how.event] else before
  }

  function AnsweredIds(log: seq<Settled>): seq<nat> {
    if log == [] then []
    else
      var last := log[|log| - 1];
      var before := AnsweredIds(log[..|log| - 1]);
      if last.how.Answered? then before + [last.id] else before
  }

  lemma LogPush(log: seq<Settled>, s: Settled)
    ensures SettledIds(log + [s]) == SettledIds(log) + multiset{s.id}
    ensures Answers(log + [s]) == if s.how.Answered? then Answers(log) + [s.how.event] else Answers(log)
    ensures AnsweredIds(log + [s]) == if s.how.Answered? then AnsweredIds(log) + [s.id] else AnsweredIds(log)
  {
    assert (log + [s])[..|log|] == log;
  }

  /** Calls were answered, and none ended in another way. */
  ghost predicate AnswersAdded(before: seq<Settled>, after: seq<Settled>) {
    before <= after && forall k :: |before| <= k < |after| ==> after[k].how.Answered?
  }

  lemma AddedMore(a: seq<Settled>, b: seq<Settled>, c: seq<Settled>)
    ensures AnswersAdded(a, a)
    ensures AnswersAdded(a, b) && AnswersAdded(b, c) ==> AnswersAdded(a, c)
  {
  }

  function Below(n: nat): multiset<nat> { if n == 0 then multiset{} else Below(n - 1) + multiset{n - 1} }

  /** Every call so far either waits or has ended, exactly once. */
  ghost predicate OnceEach(waiters: seq<nat>, log: seq<Settled>, calls: nat) {
    multiset(waiters) + SettledIds(log) == Below(calls)
  }

  /** In the order of the calls, of which there were `n`. */
  ghost predicate Ranked(ids: seq<nat>, n: nat) {
    (forall i, j :: 0 <= i < j < |ids| ==> ids[i] < ids[j]) && forall k :: 0 <= k < |ids| ==> ids[k] < n
  }

  lemma RankedPush(ids: seq<nat>, n: nat)
    requires Ranked(ids, n)
    ensures Ranked(ids + [n], n + 1) && Ranked(ids, n + 1)
  {
  }

  lemma RankedSkip(ids: seq<nat>, n: nat, k: nat)
    requires Ranked(ids, n) && k < |ids|
    ensures Ranked(ids[..k] + ids[k + 1..], n)
  {
    var now := ids[..k] + ids[k + 1..];
    assert forall i :: 0 <= i < |now| ==> now[i] == if i < k then ids[i] else ids[i + 1];
  }

  lemma TakenOut(ids: seq<nat>, k: nat)
    requires k < |ids|
    ensures multiset(ids) == multiset(ids[..k] + ids[k + 1..]) + multiset{ids[k]}
  {
    assert ids == ids[..k] + ([ids[k]] + ids[k + 1..]);
  }

  /** The calls answered were answered in the order they were made, and those waiting come after them. */
  ghost predicate InOrder(waiters: seq<nat>, log: seq<Settled>, calls: nat) {
    Ranked(AnsweredIds(log) + waiters, calls)
  }

  ghost predicate CallsOk(waiters: seq<nat>, log: seq<Settled>, calls: nat) {
    OnceEach(waiters, log, calls) && InOrder(waiters, log, calls)
  }

  lemma FirstOut(a: seq<nat>, ids: seq<nat>)
    requires ids != []
    ensures a + ids == a + [ids[0]] + ids[1..] && multiset(ids) == multiset(ids[1..]) + multiset{ids[0]}
  {
    assert ids == [ids[0]] + ids[1..];
  }

  lemma NoneOut(a: seq<nat>)
    ensures a + [] == a
  {
  }

  /** The first waiter is answered. */
  lemma FirstAnswered(waiters: seq<nat>, log: seq<Settled>, calls: nat, e: Event)
    requires CallsOk(waiters, log, calls) && waiters != []
    ensures CallsOk(waiters[1..], log + [Settled(waiters[0], Answered(e))], calls)
  {
    hide Ranked, SettledIds, AnsweredIds;
    LogPush(log, Settled(waiters[0], Answered(e)));
    FirstOut(AnsweredIds(log), waiters);
  }

  /** A call that ends at once; it may only be answered when none waits. */
  lemma EndsAtOnce(waiters: seq<nat>, log: seq<Settled>, calls: nat, how: How)
    requires CallsOk(waiters, log, calls) && (how.Answered? ==> waiters == [])
    ensures CallsOk(waiters, log + [Settled(calls, how)], calls + 1)
  {
    hide Ranked, SettledIds, AnsweredIds;
    LogPush(log, Settled(calls, how));
    var a := AnsweredIds(log);
    OneMore(waiters, log, calls, how);
    hide OnceEach;
    RankedPush(a + waiters, calls);
    NoneOut(a);
    NoneOut(a + [calls]);
  }

  lemma OneMore(waiters: seq<nat>, log: seq<Settled>, calls: nat, how: How)
    requires OnceEach(waiters, log, calls)
    ensures OnceEach(waiters, log + [Settled(calls, how)], calls + 1)
  {
    hide SettledIds;
    LogPush(log, Settled(calls, how));
  }

  lemma StartsWaiting(waiters: seq<nat>, log: seq<Settled>, calls: nat)
    requires CallsOk(waiters, log, calls)
    ensures CallsOk(waiters + [calls], log, calls + 1)
  {
    hide Ranked, SettledIds, AnsweredIds;
    RankedPush(AnsweredIds(log) + waiters, calls);
    assert AnsweredIds(log) + (waiters + [calls]) == AnsweredIds(log) + waiters + [calls];
  }

  /** One waiter is gone, and the others keep their order. */
  ghost predicate Without(before: seq<nat>, id: nat, after: seq<nat>) {
    exists k :: 0 <= k < |before| && before[k] == id && after == before[..k] + before[k + 1..]
  }

  lemma LeavesWaiting(waiters: seq<nat>, log: seq<Settled>, calls: nat, k: nat, how: How)
    requires CallsOk(waiters, log, calls) && k < |waiters| && !how.Answered?
    ensures CallsOk(waiters[..k] + waiters[k + 1..], log + [Settled(waiters[k], how)], calls)
    ensures waiters[k] !in waiters[..k] + waiters[k + 1..]
    ensures Without(waiters, waiters[k], waiters[..k] + waiters[k + 1..])
  {
    GoneFrom(waiters, AnsweredIds(log), calls, k);
    hide Ranked, SettledIds, AnsweredIds;
    LogPush(log, Settled(waiters[k], how));
    TakenOut(waiters, k);
    var a := AnsweredIds(log);
    RankedSkip(a + waiters, calls, |a| + k);
    assert (a + waiters)[..|a| + k] + (a + waiters)[|a| + k + 1..] == a + (waiters[..k] + waiters[k + 1..]);
    NoneOut(a);
  }

  //
  // What the calls are told
  //

  function EndOf(terminal: Option<Error>): seq<Event> { if terminal.Some? then [End(terminal.value)] else [] }

  /** The answers, then the queue, then the end make up the events; when all of these are told, the
      end is told again. */
  ghost predicate Told(all: seq<Event>, answers: seq<Event>, queue: seq<seq<Byte>>, terminal: Option<Error>) {
    || answers + LineEvents(queue) + EndOf(terminal) == all
    || (&& queue == [] && terminal.Some? && all <= answers && all != [] && all[|all| - 1] == End(terminal.value)
        && forall k :: |all| <= k < |answers| ==> answers[k] == End(terminal.value))
  }

  /** So the calls that are answered report the events of the source, in order. */
  lemma ToldReports(all: seq<Event>, answers: seq<Event>, queue: seq<seq<Byte>>, terminal: Option<Error>)
    requires Told(all, answers, queue, terminal)
    ensures Reports(all, answers)
  {
    assert answers + LineEvents(queue) + EndOf(terminal) == answers + (LineEvents(queue) + EndOf(terminal));
  }

  lemma QueueTold(all: seq<Event>, answers: seq<Event>, queue: seq<seq<Byte>>, terminal: Option<Error>)
    requires queue != [] && Told(all, answers, queue, terminal)
    ensures Told(all, answers + [Line(queue[0])], queue[1..], terminal)
  {
    hide LineEvents;
    Cons(queue[0], queue[1..]);
    assert queue == [queue[0]] + queue[1..];
    QueueMoves(answers, [Line(queue[0])], LineEvents(queue[1..]));
  }

  lemma QueueMoves(a: seq<Event>, b: seq<Event>, c: seq<Event>)
    ensures a + (b + c) == a + b + c
  {
  }

  lemma EndTold(all: seq<Event>, answers: seq<Event>, terminal: Option<Error>)
    requires terminal.Some? && Told(all, answers, [], terminal)
    ensures Told(all, answers + [End(terminal.value)], [], terminal)
  {
    assert LineEvents([]) == [] && answers + [] + EndOf(terminal) == answers + [End(terminal.value)];
  }

  lemma Told0(all: seq<Event>, answers: seq<Event>, queue: seq<seq<Byte>>)
    ensures Told(all, answers, queue, None) <==> answers + LineEvents(queue) == all
    ensures forall e :: answers + LineEvents(queue) == all ==> Told(all + [End(e)], answers, queue, Some(e))
  {
    assert answers + LineEvents(queue) + [] == answers + LineEvents(queue);
  }

  //
  // The reader
  //

  class LineReader {
    var pending: seq<seq<Byte>>
    var pendingBytes: nat
    var queue: seq<seq<Byte>>
    var waiters: seq<nat>           // the calls that wait, by number
    var terminal: Option<Error>
    var paused: bool                // the source's own state
    var calls: nat                  // how many calls there were
    var settled: seq<Settled>       // the promises that ended, in order
    ghost var input: seq<Read>      // what the source gave

    /** Who waits and what is queued. */
    ghost predicate Flow() reads this {
      && (queue == [] || waiters == [])
      && (terminal.Some? ==> waiters == [])
      && (terminal.None? ==> (paused <==> queue != []))
      && (queue != [] ==> paused)
      && CallsOk(waiters, settled, calls)
    }

    ghost predicate Valid() reads this {
      && Flow()
      && pendingBytes == |Flatten(pending)|
      && (terminal.Some? ==> pending == [])
      && (terminal.None? ==> LF !in Flatten(pending) && |Flatten(pending)| <= MAX_LINE_BYTES)
      && Left([], input) == (if terminal.None? then Some(Flatten(pending)) else None)
      && Told(Pending([], input), Answers(settled), queue, terminal)
    }

    constructor ()
      ensures Valid() && input == [] && settled == [] && terminal.None? && calls == 0
    {
      pending, pendingBytes, queue, waiters, terminal := [], 0, [], [], None;
      paused, calls, settled, input := false, 0, [], [];
      new;
      TakeRest([]);
      assert LineEvents([]) == [] && Left([], []) == Some([]) && Pending([], []) == [];
    }

    /** `#deliver`: to the call that waits longest, or into the queue. */
    method Deliver(line: seq<Byte>)
      requires Flow() && terminal.None?
      modifies this`waiters, this`settled, this`queue, this`paused
      ensures Flow() && AnswersAdded(old(settled), settled)
      ensures Answers(settled) + LineEvents(queue) == old(Answers(settled) + LineEvents(queue)) + [Line(line)]
    {
      hide CallsOk, LineEvents, Answers;
      NoLines();
      LineEventsCat(queue, [line]);
      Cons(line, []);
      if waiters != [] {
        var waiter := waiters[0];
        FirstAnswered(waiters, settled, calls, Line(line));
        LogPush(settled, Settled(waiter, Answered(Line(line))));
        waiters := waiters[1..];
        settled := settled + [Settled(waiter, Answered(Line(line)))];
      } else {
        queue := queue + [line];
        paused := true;
      }
    }

    /** `#terminate`: the first end counts; every waiting call is told it. */
    method Terminate(e: Error)
      requires Flow()
      modifies this
      ensures Flow() && queue == old(queue) && calls == old(calls) && input == old(input)
      ensures AnswersAdded(old(settled), settled)
      ensures old(terminal).Some? ==> unchanged(this)
      ensures old(terminal).None? ==> terminal == Some(e) && pending == [] && pendingBytes == 0
      ensures forall all :: old(terminal).None? && Told(all, old(Answers(settled)), queue, None) ==>
                Told(all + [End(e)], Answers(settled), queue, terminal)
    {
      hide CallsOk, Answers, Told;
      if terminal.Some? {
        return;
      }
      terminal := Some(e);
      pending, pendingBytes, paused := [], 0, true;
      var ws := waiters;
      waiters := [];
      forall all | Told(all, Answers(settled), queue, None)
        ensures Told(all + [End(e)], Answers(settled), queue, terminal)
      {
        Told0(all, Answers(settled), queue);
      }
      for i := 0 to |ws|
        invariant CallsOk(ws[i..], settled, calls) && AnswersAdded(old(settled), settled)
        invariant unchanged(`queue, `calls, `input) && waiters == [] && terminal == Some(e)
        invariant pending == [] && pendingBytes == 0 && paused
        invariant forall all :: Told(all, old(Answers(settled)), queue, None) ==>
                    Told(all + [End(e)], Answers(settled), queue, terminal)
      {
        FirstAnswered(ws[i..], settled, calls, End(e));
        assert ws[i..][1..] == ws[i + 1..] && ws[i..][0] == ws[i];
        LogPush(settled, Settled(ws[i], Answered(End(e))));
        forall all | Told(all, old(Answers(settled)), queue, None)
          ensures Told(all + [End(e)], Answers(settled) + [End(e)], queue, terminal)
        {
          EndTold(all + [End(e)], Answers(settled), terminal);
        }
        settled := settled + [Settled(ws[i], Answered(End(e)))];
      }
    }

    /** The source's `end` and `error`, and `fail`. */
    method OnEnd(r: Read)
      requires Valid() && !r.Chunk?
      modifies this
      ensures Valid() && input == old(input) + [r] && queue == old(queue)
      ensures calls == old(calls) && AnswersAdded(old(settled), settled)
      ensures terminal == if old(terminal).Some? then old(terminal) else Some(if r.AtEof? then Eof else Io(r.kind))
    {
      hide Told, Answers, CallsOk, Pending, Left;
      PendingResumes([], input, [r]);
      ghost var all := Pending([], input);
      ghost var buf := Flatten(pending);
      if terminal.None? {
        EndRead(buf, r);
        Told0(all, Answers(settled), queue);
      }
      Terminate(if r.AtEof? then Eof else Io(r.kind));
      input := input + [r];
    }

    /** A piece that ends with a line feed: with the pieces before it, it is a line. */
    method Complete(piece: seq<Byte>)
      requires Flow() && terminal.None?
      modifies this
      ensures Flow() && terminal.None? && pending == [] && pendingBytes == 0
      ensures calls == old(calls) && input == old(input) && AnswersAdded(old(settled), settled)
      ensures Answers(settled) + LineEvents(queue)
           == old(Answers(settled) + LineEvents(queue)) + [Line(old(Flatten(pending)) + piece)]
    {
      hide Answers, CallsOk, Flatten, LineEvents, AnswersAdded;
      FlattenPush(pending, piece);
      pending := pending + [piece];
      var line := if |pending| == 1 then piece else Flatten(pending);
      FlattenFew(pending, piece);
      pending := [];
      pendingBytes := 0;
      Deliver(line);
    }

    /** The rest of a chunk, after its last line feed. */
    method KeepRest(rest: seq<Byte>)
      requires Flow() && terminal.None? && pendingBytes == |Flatten(pending)|
      modifies this
      ensures Flow() && queue == old(queue) && calls == old(calls) && input == old(input)
      ensures AnswersAdded(old(settled), settled) && pendingBytes == |Flatten(pending)|
      ensures var open := old(Flatten(pending)) + rest;
              if |open| > MAX_LINE_BYTES then
                && terminal == Some(LineTooLong) && pending == []
                && forall all :: Told(all, old(Answers(settled)), queue, None) ==>
                     Told(all + [End(LineTooLong)], Answers(settled), queue, terminal)
              else terminal.None? && Flatten(pending) == open && settled == old(settled)
    {
      hide Told, Answers, CallsOk, Flatten, LineEvents, AnswersAdded;
      AddedMore(settled, settled, settled);
      FlattenPush(pending, rest);
      pending := pending + [rest];
      pendingBytes := pendingBytes + |rest|;
      if pendingBytes > MAX_LINE_BYTES {
        FlattenFew([], []);
        Terminate(LineTooLong);
      }
    }

    /** `#onData`: the lines the chunk completes are delivered; its rest is kept, or is too long. */
    method OnData(chunk: seq<Byte>)
      requires Valid()
      modifies this
      ensures Valid() && input == old(input) + [Chunk(chunk)]
      ensures calls == old(calls) && AnswersAdded(old(settled), settled)
    {
      hide Told, Answers, CallsOk, Pending, Left, Lines, Rest, Flatten, LineEvents, AnswersAdded, Take;
      AddedMore(settled, settled, settled);
      PendingResumes([], input, [Chunk(chunk)]);
      input := input + [Chunk(chunk)];
      if terminal.Some? {
        return;
      }
      ghost var all := Pending([], old(input));
      ghost var whole := Flatten(pending) + chunk;
      ghost var lines: seq<seq<Byte>> := [];
      Told0(all, Answers(settled), queue);
      NoLines();
      assert all + [] == all && [] + Lines(whole) == Lines(whole) && chunk[0..] == chunk;
      var start := 0;
      for i := 0 to |chunk|
        invariant calls == old(calls) && AnswersAdded(old(settled), settled)
        invariant Flow() && terminal.None? && input == old(input) + [Chunk(chunk)]
        invariant 0 <= start <= i && pendingBytes == |Flatten(pending)| <= MAX_LINE_BYTES
        invariant LF !in Flatten(pending)
        invariant forall k :: start <= k < i ==> chunk[k] != LF
        invariant Answers(settled) + LineEvents(queue) == all + LineEvents(lines)
        invariant Lines(whole) == lines + Lines(Flatten(pending) + chunk[start..])
        invariant Rest(whole) == Rest(Flatten(pending) + chunk[start..])
      {
        if chunk[i] != LF {
          continue;
        }
        var piece := chunk[start..i];
        ghost var held := Flatten(pending);
        ghost var line := held + piece;
        LineFound(held, chunk, start, i);
        ghost var before := settled;
        Complete(piece);
        AddedMore(old(settled), before, settled);
        OneMoreLine(all, lines, line, Lines(chunk[i + 1..]));
        lines := lines + [line];
        start := i + 1;
        NothingHeld(chunk[start..]);
      }
      ghost var open := Flatten(pending) + chunk[start..];
      assert LF !in open;
      ChunkRead(Flatten(old(pending)), chunk, lines, open);
      Told0(all + LineEvents(lines), Answers(settled), queue);
      if start < |chunk| {
        assert all + (LineEvents(lines) + [End(LineTooLong)]) == all + LineEvents(lines) + [End(LineTooLong)];
        ghost var before := settled;
        KeepRest(chunk[start..]);
        AddedMore(old(settled), before, settled);
        if terminal.Some? {
          return;
        }
      } else {
        assert open == Flatten(pending);
      }
      if |queue| > 0 {
        paused := true;
      }
    }

    /** `readLine`: a queued line first, then the end, then a signal that is already aborted; else the
        call waits. */
    method ReadLine(aborted: bool) returns (id: nat)
      requires Valid()
      modifies this
      ensures Valid() && id == old(calls) && calls == id + 1 && input == old(input)
      ensures var how := if old(queue) != [] then Some(Answered(Line(old(queue)[0])))
                         else if terminal.Some? then Some(Answered(End(terminal.value)))
                         else if aborted then Some(Aborted)
                         else None;
              && settled == old(settled) + (if how.Some? then [Settled(id, how.value)] else [])
              && waiters == old(waiters) + (if how.Some? then [] else [id])
      ensures queue == (if old(queue) != [] then old(queue)[1..] else []) && terminal == old(terminal)
    {
      hide Told, Answers, AnsweredIds, SettledIds, CallsOk, Pending, Left, Flatten, LineEvents;
      id := calls;
      calls := calls + 1;
      if queue != [] {
        var queued := queue[0];
        QueueTold(Pending([], input), Answers(settled), queue, terminal);
        LogPush(settled, Settled(id, Answered(Line(queued))));
        EndsAtOnce(waiters, settled, id, Answered(Line(queued)));
        queue := queue[1..];
        if queue == [] {
          paused := false;
        }
        settled := settled + [Settled(id, Answered(Line(queued)))];
      } else if terminal.Some? {
        EndTold(Pending([], input), Answers(settled), terminal);
        LogPush(settled, Settled(id, Answered(End(terminal.value))));
        EndsAtOnce(waiters, settled, id, Answered(End(terminal.value)));
        settled := settled + [Settled(id, Answered(End(terminal.value)))];
      } else if aborted {
        LogPush(settled, Settled(id, Aborted));
        EndsAtOnce(waiters, settled, id, Aborted);
        settled := settled + [Settled(id, Aborted)];
      } else {
        StartsWaiting(waiters, settled, id);
        waiters := waiters + [id];
      }
    }

    /** The timer of a call, or its signal: only the call that waits is ended, and nothing else changes. */
    method Leave(id: nat, how: How)
      requires Valid() && !how.Answered?
      modifies this`waiters, this`settled
      ensures Valid()
      ensures Answers(settled) == old(Answers(settled))
      ensures id !in waiters && (id !in old(waiters) ==> waiters == old(waiters) && settled == old(settled))
      ensures id in old(waiters) ==>
                && settled == old(settled) + [Settled(id, how)]
                && Without(old(waiters), id, waiters)
    {
      hide Told, Answers, Pending, Left, Flatten, CallsOk, Without, Take;
      var i := 0;
      while i < |waiters| && waiters[i] != id
        invariant 0 <= i <= |waiters| && forall j :: 0 <= j < i ==> waiters[j] != id
      {
        i := i + 1;
      }
      if i < |waiters| {
        LeavesWaiting(waiters, settled, calls, i, how);
        LogPush(settled, Settled(id, how));
        waiters := waiters[..i] + waiters[i + 1..];
        settled := settled + [Settled(id, how)];
      }
    }
  }

  lemma GoneFrom(waiters: seq<nat>, answered: seq<nat>, calls: nat, i: nat)
    requires i < |waiters| && Ranked(answered + waiters, calls)
    ensures waiters[i] !in waiters[..i] + waiters[i + 1..]
  {
    var ids := answered + waiters;
    assert forall k :: 0 <= k < |waiters| ==> waiters[k] == ids[|answered| + k];
  }

  lemma FlattenPush(pieces: seq<seq<Byte>>, piece: seq<Byte>)
    ensures Flatten(pieces + [piece]) == Flatten(pieces) + piece
  {
    if pieces == [] {
      assert Flatten([piece]) == piece + Flatten([piece][1..]) == piece + [] == piece;
      assert pieces + [piece] == [piece] && Flatten([]) + piece == piece;
    } else {
      assert (pieces + [piece])[1..] == pieces[1..] + [piece];
      FlattenPush(pieces[1..], piece);
      assert pieces[0] + (Flatten(pieces[1..]) + piece) == Flatten(pieces) + piece;
    }
  }

  lemma NothingHeld(more: seq<Byte>)
    ensures Flatten([]) + more == more && Flatten([]) == []
  {
  }

  lemma FlattenFew(pieces: seq<seq<Byte>>, piece: seq<Byte>)
    ensures pieces == [] ==> Flatten(pieces) == []
    ensures |pieces| == 1 && pieces[0] == piece ==> Flatten(pieces) == piece
  {
  }

  lemma CutLine(b: seq<Byte>, n: nat)
    requires n < |b| && b[n] == LF && forall k :: 0 <= k < n ==> b[k] != LF
    ensures Lines(b) == [b[..n]] + Lines(b[n + 1..]) && Rest(b) == Rest(b[n + 1..])
  {
    hide IndexOfLf;
    IndexUnique(b, n);
  }

  /** Where the next line feed is, the open line ends. */
  lemma LineFound(held: seq<Byte>, chunk: seq<Byte>, start: nat, i: nat)
    requires LF !in held && start <= i < |chunk| && chunk[i] == LF
    requires forall k :: start <= k < i ==> chunk[k] != LF
    ensures var open := held + chunk[start..];
            && Lines(open) == [held + chunk[start..i]] + Lines(chunk[i + 1..])
            && Rest(open) == Rest(chunk[i + 1..])
  {
    hide Lines, Rest;
    var open := held + chunk[start..];
    var n := |held| + (i - start);
    assert forall k :: 0 <= k < |held| ==> held[k] in held && open[k] == held[k];
    assert open[n] == LF;
    CutLine(open, n);
    assert open[..n] == held + chunk[start..i] && open[n + 1..] == chunk[i + 1..];
  }

  lemma OneMoreLine(all: seq<Event>, lines: seq<seq<Byte>>, line: seq<Byte>, more: seq<seq<Byte>>)
    ensures lines + ([line] + more) == lines + [line] + more
    ensures all + LineEvents(lines) + [Line(line)] == all + LineEvents(lines + [line])
  {
    hide LineEvents;
    LineEventsCat(lines, [line]);
    Cons(line, []);
    NoLines();
    assert [line] + [] == [line];
    QueueMoves(all, LineEvents(lines), [Line(line)]);
  }

  /** What one chunk gives. */
  lemma ChunkRead(buf: seq<Byte>, chunk: seq<Byte>, lines: seq<seq<Byte>>, open: seq<Byte>)
    requires LF !in buf && |buf| <= MAX_LINE_BYTES && LF !in open
    requires Lines(buf + chunk) == lines + Lines(open) && Rest(buf + chunk) == Rest(open)
    ensures var long := |open| > MAX_LINE_BYTES;
            && Pending(buf, [Chunk(chunk)]) == (if long then LineEvents(lines) + [End(LineTooLong)] else LineEvents(lines))
            && Left(buf, [Chunk(chunk)]) == (if long then None else Some(open))
  {
    hide Lines, Rest, LineEvents;
    SplitUnique([], open);
    NoLines();
    assert [] + open == open && lines + [] == lines;
    TakeRest(buf);
    TakeRest(open);
    assert [Chunk(chunk)][1..] == [] && LineEvents(lines) + [] == LineEvents(lines);
    PendingStep(buf, [Chunk(chunk)]);
    PendingStep(open, []);
    PendingLines(buf + chunk, []);
    LeftLines(buf + chunk, []);
  }

  lemma EndRead(buf: seq<Byte>, r: Read)
    requires !r.Chunk? && LF !in buf && |buf| <= MAX_LINE_BYTES
    ensures Pending(buf, [r]) == [End(if r.AtEof? then Eof else Io(r.kind))] && Left(buf, [r]) == None
  {
    TakeRest(buf);
  }

  //
  // Whole runs
  //

  /** What may happen to a reader: its source calls it back, its user calls it, a timer or a signal fires. */
  datatype Happening = Data(chunk: seq<Byte>) | SourceEnds(r: Read) | Call(aborted: bool) | Timer(id: nat) | Signal(id: nat)

  /** What the source gave. */
  function Given(hs: seq<Happening>): seq<Read> {
    if hs == [] then []
    else
      var last := hs[|hs| - 1];
      var before := Given(hs[..|hs| - 1]);
      if last.Data? then before + [Chunk(last.chunk)] else if last.SourceEnds? then before + [last.r] else before
  }

  /** A call times out only by its timer, and is aborted only by its signal or because that already
      was when it was made. */
  ghost predicate Caused(hs: seq<Happening>, s: Settled) {
    match s.how
    case Answered(_) => true
    case TimedOut => Timer(s.id) in hs
    case Aborted => Signal(s.id) in hs || Call(true) in hs
  }

  /** Whatever happens, in whatever order: the calls that were answered were told, in the order they
      were made, a beginning of the events of the source, or all of them and then the end. */
  method Run(hs: seq<Happening>) returns (reader: LineReader)
    requires forall k :: 0 <= k < |hs| && hs[k].SourceEnds? ==> !hs[k].r.Chunk?
    ensures fresh(reader) && reader.Valid()
    ensures Reports(Pending([], Given(hs)), Answers(reader.settled))
    ensures Ranked(AnsweredIds(reader.settled), reader.calls)
    ensures OnceEach(reader.waiters, reader.settled, reader.calls)
    ensures forall k :: 0 <= k < |reader.settled| ==> Caused(hs, reader.settled[k])
  {
    hide Told, Answers, Pending, Left, Flatten, OnceEach, Ranked, Reports;
    reader := new LineReader();
    assert hs[..0] == [];
    for i := 0 to |hs|
      invariant fresh(reader) && reader.Valid() && reader.input == Given(hs[..i])
      invariant forall k :: 0 <= k < |reader.settled| ==> Caused(hs, reader.settled[k])
    {
      assert hs[..i + 1][..i] == hs[..i];
      match hs[i]
      case Data(chunk) => reader.OnData(chunk);
      case SourceEnds(r) => reader.OnEnd(r);
      case Call(aborted) => var _ := reader.ReadLine(aborted);
      case Timer(id) => reader.Leave(id, How.TimedOut);
      case Signal(id) => reader.Leave(id, Aborted);
    }
    assert hs[..|hs|] == hs;
    ToldReports(Pending([], reader.input), Answers(reader.settled), reader.queue, reader.terminal);
    FrontRanked(AnsweredIds(reader.settled), reader.waiters, reader.calls);
  }

  lemma FrontRanked(a: seq<nat>, b: seq<nat>, n: nat)
    requires Ranked(a + b, n)
    ensures Ranked(a, n)
  {
    assert forall k :: 0 <= k < |a| ==> a[k] == (a + b)[k];
  }
}
