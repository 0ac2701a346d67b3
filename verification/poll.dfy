/**
  waitUntilOffline as an event-driven state machine.

  The loop's future is `Pending` until the first of two things happens: a
  status query reports "offline" (`Completed`), or the orTimeout timer fires
  (`Expired`: the future completes exceptionally with a timeout). At most
  one status query is outstanding at a time: it is `Scheduled` (the host
  scheduler will send it on its next `Tick`) or `InFlight` (sent, its reply
  not yet delivered), or there is none (`Idle`).

  A query that fails never reaches the callback (`thenAccept` is skipped on an
  exceptional future), so it neither completes the loop nor schedules another
  query: the loop stalls until the timer resolves it. There is deliberately
  no separate "failed" outcome.
 */
module Poll {
  import opened Outcomes
  import opened Requests
  import opened Replies

  const Offline := "offline"

  datatype Future = Pending | Completed | Expired

  datatype Query = Idle | Scheduled | InFlight

  datatype Loop = Loop(future: Future, query: Query)
  {
    /** `future.isDone()`: completed normally or exceptionally. */
    predicate Done()
    {
      future != Pending
    }
  }

  /** Inputs of the loop: a status query's reply, the scheduler running a deferred poll, the deadline. */
  datatype Event = StatusReply(reply: Reply) | Tick | Timeout

  /** Entering the loop sends the first status query at once. */
  const Initial := Loop(Pending, InFlight)

  /**
    One event. Returns the next loop state and the calls it issues. A reply
    with no query in flight, or a tick with nothing scheduled, cannot occur
    and leaves the loop as it is.
   */
  function Next(server: string, l: Loop, e: Event): (r: (Loop, seq<Call>))
    // once done, the outcome never changes: no second completion, done never reverts
    ensures l.Done() ==> r.0.future == l.future
    // only a scheduled poll, released by a tick, issues a call: one status query of this server
    ensures r.1 == [] || (e.Tick? && l.query == Scheduled && r.1 == [StatusCall(server)])
    // only an "offline" reading of a pending loop completes it
    ensures !l.Done() && r.0.future == Completed ==>
      e.StatusReply? && l.query == InFlight && CurrentState(e.reply) == Ok(Offline)
    // only the timer times it out
    ensures !l.Done() && r.0.future == Expired ==> e.Timeout?
    // the timer expires a pending loop whatever its query is doing
    ensures e.Timeout? && !l.Done() ==> r.0.future == Expired
    // the timer does not cancel the outstanding query: a scheduled poll stays scheduled
    ensures e.Timeout? ==> r.0.query == l.query
    // a tick sends the scheduled poll, even after the loop is done
    ensures e.Tick? && l.query == Scheduled ==> r.1 == [StatusCall(server)]
    // a further poll is scheduled only for a successful non-offline reading of a pending loop
    ensures r.0.query == Scheduled && l.query != Scheduled ==>
      e.StatusReply? && !l.Done() && CurrentState(e.reply).Ok? && CurrentState(e.reply).value != Offline
  {
    match e
    case Timeout =>
      if l.future == Pending then (l.(future := Expired), []) else (l, [])
    case Tick =>
      if l.query == Scheduled then (l.(query := InFlight), [StatusCall(server)]) else (l, [])
    case StatusReply(x) =>
      if l.query != InFlight then (l, [])
      else
        var answered := l.(query := Idle);
        match CurrentState(x)
        case Err(_) => (answered, [])
        case Ok(state) =>
          if l.Done() then (answered, [])
          else if state == Offline then (answered.(future := Completed), [])
          else (answered.(query := Scheduled), [])
  }

  /** The loop after a sequence of events, with every call it issued, in order. */
  function Run(server: string, l: Loop, es: seq<Event>): (r: (Loop, seq<Call>))
    ensures forall i :: 0 <= i < |r.1| ==> r.1[i] == StatusCall(server)
    ensures l.Done() ==> r.0.future == l.future
    ensures r.0.future == Completed && l.future != Completed ==> exists i :: 0 <= i < |es| && es[i].StatusReply?
    decreases |es|
  {
    if es == [] then (l, [])
    else
      var first := Next(server, l, es[0]);
      var rest := Run(server, first.0, es[1..]);
      var l1, l2 := first.0, rest.0;
      assert l2.future == Completed && l1.future != Completed ==> exists i :: 1 <= i < |es| && es[i].StatusReply? by {
        if l2.future == Completed && l1.future != Completed {
          var j :| 0 <= j < |es[1..]| && es[1..][j].StatusReply?;
          assert es[j + 1].StatusReply?;
        }
      }
      (l2, first.1 + rest.1)
  }

  lemma RunCons(server: string, l: Loop, e: Event, es: seq<Event>)
    ensures Run(server, l, [e] + es)
         == (Run(server, Next(server, l, e).0, es).0, Next(server, l, e).1 + Run(server, Next(server, l, e).0, es).1)
  {
    assert ([e] + es)[1..] == es;
  }

  /** Number of events that moved the loop from pending to done. */
  function Resolutions(server: string, l: Loop, es: seq<Event>): nat
    decreases |es|
  {
    if es == [] then 0
    else
      var l1 := Next(server, l, es[0]).0;
      (if !l.Done() && l1.Done() then 1 else 0) + Resolutions(server, l1, es[1..])
  }

  /** The loop's future completes at most once, and exactly once when it ends up done. */
  lemma {:induction false} AtMostOneResolution(server: string, l: Loop, es: seq<Event>)
    ensures Resolutions(server, l, es) == (if !l.Done() && Run(server, l, es).0.Done() then 1 else 0)
    decreases |es|
  {
    if es != [] {
      var l1 := Next(server, l, es[0]).0;
      AtMostOneResolution(server, l1, es[1..]);
    }
  }

  /**
    Once the loop is done, no event reschedules a poll: the only call still
    to come is the one poll the scheduler already holds, whose reply is
    then ignored.
   */
  lemma {:induction false} DoneLoopIssuesAtMostScheduled(server: string, l: Loop, es: seq<Event>)
    requires l.Done()
    ensures Run(server, l, es).0.future == l.future
    ensures |Run(server, l, es).1| <= (if l.query == Scheduled then 1 else 0)
    ensures Run(server, l, es).0.query != Scheduled || l.query == Scheduled
    decreases |es|
  {
    if es != [] {
      var l1 := Next(server, l, es[0]).0;
      DoneLoopIssuesAtMostScheduled(server, l1, es[1..]);
    }
  }

  /**
    After a failed status query the loop has nothing outstanding: it issues
    no more calls and can never complete; if the timer fires it resolves as
    timed out, otherwise it stays pending.
   */
  lemma {:induction false} FailedQueryStalls(server: string, es: seq<Event>)
    ensures Run(server, Loop(Pending, Idle), es).1 == []
    ensures Run(server, Loop(Pending, Idle), es).0.future == (if Timeout in es then Expired else Pending)
    decreases |es|
  {
    if es != [] {
      var l1 := Next(server, Loop(Pending, Idle), es[0]).0;
      assert es == [es[0]] + es[1..];
      if es[0].Timeout? {
        assert l1 == Loop(Expired, Idle);
        DoneLoopIssuesAtMostScheduled(server, l1, es[1..]);
      } else {
        assert l1 == Loop(Pending, Idle);
        FailedQueryStalls(server, es[1..]);
      }
    }
  }

  /** The timer fires while a poll is scheduled: the loop expires and the next tick still sends the poll. */
  lemma HeldPollSentAfterTimeout(server: string)
    ensures Run(server, Loop(Pending, Scheduled), [Timeout, Tick]) == (Loop(Expired, InFlight), [StatusCall(server)])
  {
    var expired := Loop(Expired, Scheduled);
    assert Next(server, Loop(Pending, Scheduled), Timeout) == (expired, []);
    var polled := Loop(Expired, InFlight);
    assert Next(server, expired, Tick) == (polled, [StatusCall(server)]);
    assert Run(server, polled, []) == (polled, []);
    assert Run(server, expired, [Tick]) == (polled, [StatusCall(server)]) by {
      assert [Tick][1..] == [];
      assert [StatusCall(server)] + [] == [StatusCall(server)];
    }
    assert [Timeout, Tick][1..] == [Tick];
    assert [] + [StatusCall(server)] == [StatusCall(server)];
  }

  /** A pending loop with its query in flight, answered "offline", completes. */
  lemma OfflineCompletes(server: string, x: Reply)
    requires CurrentState(x) == Ok(Offline)
    ensures Next(server, Initial, StatusReply(x)) == (Loop(Completed, Idle), [])
  {
  }

  /** Any other successful reading schedules exactly one further poll, which the next tick sends. */
  lemma OtherStateSchedulesOnePoll(server: string, x: Reply)
    requires CurrentState(x).Ok? && CurrentState(x).value != Offline
    ensures Next(server, Initial, StatusReply(x)) == (Loop(Pending, Scheduled), [])
    ensures Next(server, Loop(Pending, Scheduled), Tick) == (Initial, [StatusCall(server)])
  {
  }

  /** A failed query leaves the loop pending with nothing outstanding. */
  lemma FailedQueryLeavesIdle(server: string, x: Reply)
    requires CurrentState(x).Err?
    ensures Next(server, Initial, StatusReply(x)) == (Loop(Pending, Idle), [])
  {
  }

  /**
    The panel reports two states other than "offline" and then "offline":
    two further status queries after the one sent on entry, then completion.
   */
  lemma TwoReadingsThenOffline(server: string, x1: Reply, x2: Reply, x3: Reply)
    requires CurrentState(x1).Ok? && CurrentState(x1).value != Offline
    requires CurrentState(x2).Ok? && CurrentState(x2).value != Offline
    requires CurrentState(x3) == Ok(Offline)
    ensures var r := Run(server, Initial, [StatusReply(x1), Tick, StatusReply(x2), Tick, StatusReply(x3)]);
            r.0 == Loop(Completed, Idle) && r.1 == [StatusCall(server), StatusCall(server)]
  {
    var scheduled := Loop(Pending, Scheduled);
    var done := Loop(Completed, Idle);
    RunCons(server, Initial, StatusReply(x3), []);
    assert Run(server, Initial, [StatusReply(x3)]) == (done, []);
    RunCons(server, scheduled, Tick, [StatusReply(x3)]);
    RunCons(server, Initial, StatusReply(x2), [Tick, StatusReply(x3)]);
    RunCons(server, scheduled, Tick, [StatusReply(x2), Tick, StatusReply(x3)]);
    RunCons(server, Initial, StatusReply(x1), [Tick, StatusReply(x2), Tick, StatusReply(x3)]);
  }
}
