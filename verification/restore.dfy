/**
  sendRestoreSignal: stop the server, wait until it is offline, then ask the
  panel to restore the backup.

  The stop signal is fire-and-forget: its future is discarded, so its reply
  only feeds log lines and never steers the sequence. The restore request is
  sent from the `thenCompose` continuation of the wait, that is, in the same
  step in which the wait completes normally; a wait that times out fails the
  whole operation with the timeout and no restore request is ever sent.
 */
module Restore {
  import opened Outcomes
  import opened Requests
  import opened Replies
  import Poll

  datatype Phase =
    | Waiting                   // the wait-until-offline loop is pending
    | Restoring                 // the restore request is sent, its reply not yet received
    | Finished(result: Result<()>)

  /** A restore operation in progress, with every call issued so far, in order. */
  datatype State = State(server: string, backup: string, wait: Poll.Loop, phase: Phase, trace: seq<Call>)

  datatype Event =
    | StopReply(reply: Reply)     // the reply to the discarded stop signal
    | Wait(event: Poll.Event)     // an input of the wait-until-offline loop
    | RestoreReply(reply: Reply)  // the reply to the restore request

  /** Number of restore requests in a trace. */
  function Restores(trace: seq<Call>): nat
  {
    if trace == [] then 0
    else Restores(trace[..|trace| - 1]) + (if trace[|trace| - 1].RestoreCall? then 1 else 0)
  }

  /**
    What holds of every state the operation reaches: the stop signal is
    the first call and the first status query the second; the phase follows
    the wait's outcome; the trace holds one restore request exactly when the
    wait completed normally, and otherwise only status queries.
   */
  predicate Consistent(s: State)
  {
    && |s.trace| >= 2
    && s.trace[0] == PowerCall(s.server, Stop)
    && s.trace[1] == StatusCall(s.server)
    && (forall i :: 1 <= i < |s.trace| ==>
          s.trace[i] == StatusCall(s.server) || s.trace[i] == RestoreCall(s.server, s.backup))
    && (s.phase == Waiting <==> s.wait.future == Poll.Pending)
    && (s.phase == Finished(Err(TimedOut)) <==> s.wait.future == Poll.Expired)
    && Restores(s.trace) == (if s.wait.future == Poll.Completed then 1 else 0)
  }

  /** The stop signal is sent, then the first status query of the wait. */
  function Begin(server: string, backup: string): (s: State)
    ensures Consistent(s)
    ensures s.phase == Waiting && Restores(s.trace) == 0
  {
    var trace := [PowerCall(server, Stop), StatusCall(server)];
    assert trace[..1] == [PowerCall(server, Stop)];
    assert trace[..1][..0] == [];
    assert Restores(trace[..1]) == 0;
    assert Restores(trace) == 0;
    State(server, backup, Poll.Initial, Waiting, trace)
  }

  lemma {:induction false} RestoresAppend(trace: seq<Call>, more: seq<Call>)
    ensures Restores(trace + more) == Restores(trace) + Restores(more)
    decreases |more|
  {
    if more != [] {
      var last := |more| - 1;
      assert (trace + more)[..|trace + more| - 1] == trace + more[..last];
      assert (trace + more)[|trace + more| - 1] == more[last];
      RestoresAppend(trace, more[..last]);
    } else {
      assert trace + more == trace;
    }
  }

  lemma RestoresOfStatus(server: string)
    ensures Restores([StatusCall(server)]) == 0
  {
    assert [StatusCall(server)][..0] == [];
  }

  lemma RestoresOfRestore(server: string, backup: string)
    ensures Restores([RestoreCall(server, backup)]) == 1
  {
    assert [RestoreCall(server, backup)][..0] == [];
  }

  /** One event of the operation. */
  function Next(s: State, e: Event): (r: State)
    ensures r.server == s.server && r.backup == s.backup
    ensures |s.trace| <= |r.trace| && r.trace[..|s.trace|] == s.trace
    ensures Consistent(s) ==> Consistent(r)
    // the restore request is sent exactly in the step where the wait completes normally
    ensures Consistent(s) ==>
      (Restores(r.trace) > Restores(s.trace) <==>
        s.wait.future == Poll.Pending && r.wait.future == Poll.Completed)
    // only the restore reply decides the outcome after the restore request
    ensures s.phase == Restoring && r.phase != Restoring ==>
      e.RestoreReply? && r.phase == Finished(ExpectNoContent(e.reply))
    // the restore reply, once the request is out, decides the result through the 204 check
    ensures s.phase == Restoring && e.RestoreReply? ==> r.phase == Finished(ExpectNoContent(e.reply))
    // the wait's normal completion leaves the operation awaiting the restore reply
    ensures Consistent(s) && s.phase == Waiting && r.wait.future == Poll.Completed ==> r.phase == Restoring
    // the wait alone can end the operation only by failing it with the timeout
    ensures s.phase == Waiting && r.phase.Finished? ==> r.phase == Finished(Err(TimedOut))
    // the timer firing during the wait fails the operation with the timeout
    ensures Consistent(s) && s.phase == Waiting && e.Wait? && e.event.Timeout? ==> r.phase == Finished(Err(TimedOut))
    // a finished operation stays finished with the same result
    ensures s.phase.Finished? ==> r.phase == s.phase
  {
    match e
    case StopReply(_) => s
    case RestoreReply(x) =>
      if s.phase == Restoring then s.(phase := Finished(ExpectNoContent(x))) else s
    case Wait(pe) =>
      OnWaitConsistent(s, pe);
      OnWait(s, pe)
  }

  /** An input of the wait loop; the wait's own continuation sends the restore request. */
  function OnWait(s: State, pe: Poll.Event): (r: State)
    ensures r.server == s.server && r.backup == s.backup
    ensures |s.trace| <= |r.trace| && r.trace[..|s.trace|] == s.trace
    ensures s.phase.Finished? ==> r.phase == s.phase
  {
    var step := Poll.Next(s.server, s.wait, pe);
    var w := step.0;
    var trace := s.trace + step.1;
    if s.phase == Waiting && w.future == Poll.Completed then
      State(s.server, s.backup, w, Restoring, trace + [RestoreCall(s.server, s.backup)])
    else if s.phase == Waiting && w.future == Poll.Expired then
      State(s.server, s.backup, w, Finished(Err(TimedOut)), trace)
    else
      State(s.server, s.backup, w, s.phase, trace)
  }

  lemma OnWaitConsistent(s: State, pe: Poll.Event)
    ensures Consistent(s) ==> Consistent(OnWait(s, pe))
    ensures Consistent(s) ==>
      (Restores(OnWait(s, pe).trace) > Restores(s.trace) <==>
        s.wait.future == Poll.Pending && OnWait(s, pe).wait.future == Poll.Completed)
  {
    if Consistent(s) {
      var step := Poll.Next(s.server, s.wait, pe);
      var trace := s.trace + step.1;
      RestoresOfStatus(s.server);
      RestoresAppend(s.trace, step.1);
      assert Restores(trace) == Restores(s.trace);
      var r := OnWait(s, pe);
      if r.phase == Restoring && s.phase == Waiting {
        RestoresOfRestore(s.server, s.backup);
        RestoresAppend(trace, [RestoreCall(s.server, s.backup)]);
      }
      forall i | 1 <= i < |r.trace|
        ensures r.trace[i] == StatusCall(s.server) || r.trace[i] == RestoreCall(s.server, s.backup)
      {
        if i >= |trace| {
        } else if i >= |s.trace| {
          assert r.trace[i] == step.1[i - |s.trace|];
        } else {
          assert r.trace[i] == s.trace[i];
        }
      }
    }
  }

  /** The operation after a sequence of events. */
  function Run(s: State, es: seq<Event>): (r: State)
    ensures r.server == s.server && r.backup == s.backup
    ensures |s.trace| <= |r.trace| && r.trace[..|s.trace|] == s.trace
    ensures Consistent(s) ==> Consistent(r)
    ensures s.phase.Finished? ==> r.phase == s.phase
    decreases |es|
  {
    if es == [] then s else Run(Next(s, es[0]), es[1..])
  }

  /** The inputs of the wait loop among the events, in order. */
  function WaitEvents(es: seq<Event>): (r: seq<Poll.Event>)
    ensures |r| <= |es|
    ensures (forall i :: 0 <= i < |es| ==> !es[i].Wait?) ==> r == []
    decreases |es|
  {
    if es == [] then []
    else (if es[0].Wait? then [es[0].event] else []) + WaitEvents(es[1..])
  }

  /** The wait state of the operation is exactly the wait loop run on the operation's wait inputs. */
  lemma {:induction false} WaitFollowsPoll(s: State, es: seq<Event>)
    ensures Run(s, es).wait == Poll.Run(s.server, s.wait, WaitEvents(es)).0
    decreases |es|
  {
    if es != [] {
      var s1 := Next(s, es[0]);
      WaitFollowsPoll(s1, es[1..]);
      if es[0].Wait? {
        Poll.RunCons(s.server, s.wait, es[0].event, WaitEvents(es[1..]));
      } else {
        assert WaitEvents(es) == WaitEvents(es[1..]);
      }
    }
  }

  /**
    The calls of the operation are its calls so far, then every status query
    the wait loop sends on the operation's wait inputs (including a poll still
    sent after the timeout), then the restore request if the wait completes.
   */
  lemma {:induction false} TraceFollowsPoll(s: State, es: seq<Event>)
    requires Consistent(s)
    ensures Run(s, es).trace
         == s.trace + Poll.Run(s.server, s.wait, WaitEvents(es)).1
            + (if s.phase == Waiting && Run(s, es).wait.future == Poll.Completed then [RestoreCall(s.server, s.backup)] else [])
    decreases |es|
  {
    if es == [] {
      assert Run(s, es) == s;
      assert Poll.Run(s.server, s.wait, []) == (s.wait, []);
    } else {
      var s1 := Next(s, es[0]);
      var w := WaitEvents(es[1..]);
      var fin := Run(s1, es[1..]);
      assert Run(s, es) == fin;
      TraceFollowsPoll(s1, es[1..]);
      WaitFollowsPoll(s1, es[1..]);
      var tail := Poll.Run(s.server, s1.wait, w);
      if es[0].Wait? {
        var step := Poll.Next(s.server, s.wait, es[0].event);
        Poll.RunCons(s.server, s.wait, es[0].event, w);
        WaitStep(s, es[0].event, w, step, tail, fin);
      } else {
        assert WaitEvents(es) == w;
        OtherStep(s, es[0]);
      }
    }
  }

  /** An event that is not a wait input leaves the calls and the wait alone, and does not start or end the wait phase. */
  lemma OtherStep(s: State, e: Event)
    requires !e.Wait?
    ensures Next(s, e).trace == s.trace && Next(s, e).wait == s.wait
    ensures Next(s, e).phase == Waiting <==> s.phase == Waiting
  {
  }

  /**
    One wait input in `TraceFollowsPoll`. The loop's step, the loop's run on
    the remaining wait inputs and the final operation are taken as given.
   */
  lemma WaitStep(s: State, pe: Poll.Event, w: seq<Poll.Event>,
                 step: (Poll.Loop, seq<Call>), tail: (Poll.Loop, seq<Call>), fin: State)
    requires Consistent(s)
    requires step == Poll.Next(s.server, s.wait, pe)
    requires tail == Poll.Run(s.server, step.0, w)
    requires fin.wait == tail.0
    requires fin.trace == OnWait(s, pe).trace + tail.1
      + (if OnWait(s, pe).phase == Waiting && fin.wait.future == Poll.Completed then [RestoreCall(s.server, s.backup)] else [])
    ensures fin.trace == s.trace + (step.1 + tail.1)
      + (if s.phase == Waiting && fin.wait.future == Poll.Completed then [RestoreCall(s.server, s.backup)] else [])
  {
    var restore := [RestoreCall(s.server, s.backup)];
    var s1 := OnWait(s, pe);
    if s.phase == Waiting && step.0.future == Poll.Completed {
      assert step.0.query != Poll.Scheduled;
      Poll.DoneLoopIssuesAtMostScheduled(s.server, step.0, w);
      assert tail.1 == [];
      assert s1.phase == Restoring;
      assert fin.trace == s.trace + step.1 + restore + [];
    } else {
      assert s1.trace == s.trace + step.1;
      if s.phase == Waiting && step.0.future == Poll.Expired {
        Poll.DoneLoopIssuesAtMostScheduled(s.server, step.0, w);
      }
      assert s1.phase == Waiting <==> s.phase == Waiting && step.0.future == Poll.Pending;
    }
  }

  /** The operation's result, once it has one. */
  function Outcome(s: State): Option<Result<()>>
  {
    if s.phase.Finished? then Some(s.phase.result) else None
  }

  /**
    Whatever has happened so far, a restore request has been sent exactly
    when the wait has completed normally, and then exactly one; before that
    the trace holds the stop signal and status queries only.
   */
  lemma RestoreOnlyAfterOffline(server: string, backup: string, es: seq<Event>)
    ensures var s := Run(Begin(server, backup), es);
      && (Restores(s.trace) > 0 <==> s.wait.future == Poll.Completed)
      && Restores(s.trace) <= 1
      && (s.wait.future != Poll.Completed ==>
            forall i :: 1 <= i < |s.trace| ==> s.trace[i] == StatusCall(server))
  {
    var s := Run(Begin(server, backup), es);
    assert Consistent(s);
    if s.wait.future != Poll.Completed {
      forall i | 1 <= i < |s.trace|
        ensures s.trace[i] == StatusCall(server)
      {
        if s.trace[i] != StatusCall(server) {
          NoRestoreMeansNoRestoreCall(s.trace, i);
        }
      }
    }
  }

  lemma {:induction false} NoRestoreMeansNoRestoreCall(trace: seq<Call>, i: nat)
    requires i < |trace| && trace[i].RestoreCall?
    ensures Restores(trace) > 0
    decreases |trace|
  {
    var last := |trace| - 1;
    if i < last {
      assert trace[..last][i] == trace[i];
      NoRestoreMeansNoRestoreCall(trace[..last], i);
    }
  }

  /**
    If the wait times out the operation fails with the timeout, for good,
    and the restore endpoint receives no request.
   */
  lemma TimeoutMeansNoRestore(server: string, backup: string, es: seq<Event>)
    requires Run(Begin(server, backup), es).wait.future == Poll.Expired
    ensures Outcome(Run(Begin(server, backup), es)) == Some(Err(TimedOut))
    ensures Restores(Run(Begin(server, backup), es).trace) == 0
  {
    assert Consistent(Run(Begin(server, backup), es));
  }

  /** A successful operation went through a normal completion of the wait and one accepted restore request. */
  lemma SuccessMeansRestored(server: string, backup: string, es: seq<Event>)
    requires Outcome(Run(Begin(server, backup), es)) == Some(Ok(()))
    ensures Run(Begin(server, backup), es).wait.future == Poll.Completed
    ensures Restores(Run(Begin(server, backup), es).trace) == 1
    ensures exists i :: AcceptedAt(es, i)
  {
    assert Consistent(Run(Begin(server, backup), es));
    SuccessNeedsAcceptedReply(Begin(server, backup), es);
  }

  /** Event `i` is a restore reply that passes the 204 check. */
  predicate AcceptedAt(es: seq<Event>, i: int)
  {
    0 <= i < |es| && es[i].RestoreReply? && ExpectNoContent(es[i].reply) == Ok(())
  }

  /** An unfinished operation that ends in success received a restore reply that passed the 204 check. */
  lemma {:induction false} SuccessNeedsAcceptedReply(s: State, es: seq<Event>)
    requires !s.phase.Finished?
    requires Outcome(Run(s, es)) == Some(Ok(()))
    ensures exists i :: AcceptedAt(es, i)
    decreases |es|
  {
    var s1 := Next(s, es[0]);
    if s1.phase.Finished? {
      assert AcceptedAt(es, 0);
    } else {
      SuccessNeedsAcceptedReply(s1, es[1..]);
      var j :| AcceptedAt(es[1..], j);
      assert AcceptedAt(es, j + 1);
    }
  }

  /**
    The server reads "offline" at the first status query and the panel
    accepts the restore request with 204: the operation succeeds, having
    sent the stop signal, one status query and one restore request.
   */
  lemma OfflineThenAcceptedRestoreSucceeds(server: string, backup: string, x: Reply, y: Reply)
    requires CurrentState(x) == Ok(Poll.Offline)
    requires y.Response? && y.code == NoContent
    ensures var s := Run(Begin(server, backup), [Wait(Poll.StatusReply(x)), RestoreReply(y)]);
      && Outcome(s) == Some(Ok(()))
      && s.trace == [PowerCall(server, Stop), StatusCall(server), RestoreCall(server, backup)]
  {
    var s0 := Begin(server, backup);
    var es := [Wait(Poll.StatusReply(x)), RestoreReply(y)];
    var trace := [PowerCall(server, Stop), StatusCall(server), RestoreCall(server, backup)];
    Poll.OfflineCompletes(server, x);
    var s1 := State(server, backup, Poll.Loop(Poll.Completed, Poll.Idle), Restoring, trace);
    assert OnWait(s0, Poll.StatusReply(x)) == s1 by {
      assert s0.trace + [] + [RestoreCall(server, backup)] == trace;
    }
    var s2 := s1.(phase := Finished(Ok(())));
    assert Next(s1, es[1]) == s2;
    assert Run(s1, es[1..]) == s2 by {
      assert es[1..][0] == es[1] && es[1..][1..] == [];
    }
  }

  /** The events with the stop signal's replies removed. */
  function WithoutStopReplies(es: seq<Event>): (r: seq<Event>)
    ensures forall i :: 0 <= i < |r| ==> !r[i].StopReply?
    ensures |r| <= |es|
  {
    if es == [] then []
    else if es[0].StopReply? then WithoutStopReplies(es[1..])
    else [es[0]] + WithoutStopReplies(es[1..])
  }

  /**
    The stop signal's reply, whatever it is and whenever it arrives, changes
    neither the calls issued nor the result of the operation.
   */
  lemma {:induction false} StopReplyIrrelevant(s: State, es: seq<Event>)
    ensures Run(s, es) == Run(s, WithoutStopReplies(es))
    decreases |es|
  {
    if es != [] {
      StopReplyIrrelevant(Next(s, es[0]), es[1..]);
      if !es[0].StopReply? {
        var rest := WithoutStopReplies(es[1..]);
        assert ([es[0]] + rest)[0] == es[0];
        assert ([es[0]] + rest)[1..] == rest;
      }
    }
  }
}
