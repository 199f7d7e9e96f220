/** What the callers of a reader see: one outcome a call. */
module Outcomes {
  import opened Encoding
  import opened Framing

  /** What one `read_line` call returns. */
  datatype Outcome = Got(event: Event) | TimeoutError

  /** The calls that did not time out. */
  function Events(outcomes: seq<Outcome>): seq<Event> {
    if outcomes == [] then []
    else
      var last := outcomes[|outcomes| - 1];
      Events(outcomes[..|outcomes| - 1]) + if last.Got? then [last.event] else []
  }

  lemma EventsPush(outcomes: seq<Outcome>, o: Outcome)
    ensures Events(outcomes + [o]) == Events(outcomes) + if o.Got? then [o.event] else []
  {
    assert (outcomes + [o])[..|outcomes|] == outcomes;
  }

  /** What was returned is a beginning of what there is; or all of it, and then its end again and again. */
  ghost predicate Reports(all: seq<Event>, es: seq<Event>) {
    || es <= all
    || (all != [] && all[|all| - 1].End? && all <= es
        && forall k :: |all| <= k < |es| ==> es[k] == all[|all| - 1])
  }

  /** Two readers of the same events never differ in a result they both have given. */
  lemma ReportsAgree(all: seq<Event>, a: seq<Event>, b: seq<Event>)
    requires Reports(all, a) && Reports(all, b)
    ensures forall k :: 0 <= k < |a| && k < |b| ==> a[k] == b[k]
  {
  }

  //
  // A reader, seen from its caller
  //

  /** The events still to come, and the memo of the terminal error. */
  datatype View = View(coming: seq<Event>, terminal: Option<Error>)

  /** One call: a timeout changes nothing; the memo answers again and again; anything else is the
      next event, and an end is remembered. */
  ghost predicate Delivers(v: View, o: Outcome, w: View) {
    if v.terminal.Some? then o == Got(End(v.terminal.value)) && w == v
    else if o.TimeoutError? then w == v
    else v.coming == [o.event] + w.coming && w.terminal == if o.event.End? then Some(o.event.error) else None
  }

  ghost predicate Reads(v: View, outcomes: seq<Outcome>, w: View)
    decreases |outcomes|
  {
    if outcomes == [] then w == v
    else
      var before, last := outcomes[..|outcomes| - 1], outcomes[|outcomes| - 1];
      exists m :: Reads(v, before, m) && Delivers(m, last, w)
  }

  lemma ReadsPush(v: View, outcomes: seq<Outcome>, m: View, o: Outcome, w: View)
    requires Reads(v, outcomes, m) && Delivers(m, o, w)
    ensures Reads(v, outcomes + [o], w)
  {
    assert (outcomes + [o])[..|outcomes|] == outcomes;
  }

  /** The first calls of a reader are calls of it. */
  lemma {:induction false} ReadsPrefix(v: View, a: seq<Outcome>, outcomes: seq<Outcome>, w: View) returns (m: View)
    requires a <= outcomes && Reads(v, outcomes, w)
    ensures Reads(v, a, m)
    decreases |outcomes|
  {
    if a == outcomes {
      return w;
    }
    var before := outcomes[..|outcomes| - 1];
    var x :| Reads(v, before, x) && Delivers(x, outcomes[|outcomes| - 1], w);
    m := ReadsPrefix(v, a, before, x);
  }

  ghost predicate EndLast(es: seq<Event>) { forall k :: 0 <= k < |es| && es[k].End? ==> k == |es| - 1 }

  /** Whatever the calls are and wherever they time out, they report the events in order, and nothing
      is lost: what they returned and what is still to come is everything. */
  lemma {:induction false} ReadsReport(v: View, outcomes: seq<Outcome>, w: View)
    requires Reads(v, outcomes, w) && v.terminal.None? && EndLast(v.coming)
    ensures var es := Events(outcomes);
            && Reports(v.coming, es)
            && (w.terminal.None? ==> es + w.coming == v.coming)
            && (w.terminal.Some? ==>
                  w.coming == [] && v.coming <= es && v.coming != []
                  && v.coming[|v.coming| - 1] == End(w.terminal.value))
    decreases |outcomes|
  {
    if outcomes != [] {
      var before, o := outcomes[..|outcomes| - 1], outcomes[|outcomes| - 1];
      var m :| Reads(v, before, m) && Delivers(m, o, w);
      ReadsReport(v, before, m);
      if m.terminal.None? && o.Got? {
        assert Events(outcomes) + w.coming == Events(before) + m.coming;
        assert v.coming[|Events(before)|] == o.event;
      }
    }
  }
}
