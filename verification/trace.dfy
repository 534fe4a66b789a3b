/**
 Runs of the hub over a sequence of events, and the invariants that hold of
 every run: the membership set is exactly the joined-and-not-yet-left handles,
 `Forward` behaves as a FIFO that loses nothing, and it never exceeds its
 capacity.
 */
module Trace {

  import opened Options
  import opened Messages
  import opened Hub

  /** One processed event together with the write outcomes it met. */
  datatype Input = Input(event: Event, failed: set<Handle>)

  /** What a run has produced so far. */
  datatype Run = Run(
    hub: Hub,
    // every message appended to `Forward`, in order
    enqueued: seq<Message>,
    // every message taken off `Forward` and fanned out, in order
    broadcasts: seq<Message>)

  /**
   A run either processes all of its inputs or stalls at the first one whose
   channel operation cannot complete in the state reached.
   */
  datatype Outcome = Ran(run: Run) | Stalled(at: nat)

  /** Processes the inputs in order, starting from `h`. */
  function Replay(h: Hub, t: seq<Input>): (o: Outcome)
    requires h.Valid()
    ensures o.Ran? ==> o.run.hub.Valid()
    ensures o.Stalled? ==> o.at < |t|
    decreases |t|
  {
    if |t| == 0 then
      Ran(Run(h, [], []))
    else
      var prefix := Replay(h, t[..|t| - 1]);
      var last := t[|t| - 1];
      if prefix.Stalled? then prefix
      else if !Enabled(prefix.run.hub, last.event) then Stalled(|t| - 1)
      else
        var r := Step(prefix.run.hub, last.event, last.failed);
        Ran(Run(r.hub,
                prefix.run.enqueued + r.enqueued,
                prefix.run.broadcasts + (if r.broadcast.Some? then [r.broadcast.value] else [])))
  }

  /** Replaying one more input extends the replay of the shorter trace. */
  lemma ReplaySnoc(h: Hub, t: seq<Input>, x: Input)
    requires h.Valid()
    ensures Replay(h, t + [x]) ==
      (var prefix := Replay(h, t);
       if prefix.Stalled? then prefix
       else if !Enabled(prefix.run.hub, x.event) then Stalled(|t|)
       else
         var r := Step(prefix.run.hub, x.event, x.failed);
         Ran(Run(r.hub,
                 prefix.run.enqueued + r.enqueued,
                 prefix.run.broadcasts + (if r.broadcast.Some? then [r.broadcast.value] else []))))
  {
    assert (t + [x])[..|t|] == t;
  }

  /**
   The most recent Join or Leave of `c` in the trace: Some(true) for a Join,
   Some(false) for a Leave, None if the trace has neither.
   */
  function Latest(t: seq<Input>, c: Handle): Option<bool>
    decreases |t|
  {
    if |t| == 0 then None
    else if t[|t| - 1].event == Join(c) then Some(true)
    else if t[|t| - 1].event == Leave(c) then Some(false)
    else Latest(t[..|t| - 1], c)
  }

  /**
   Membership after a run: a handle is a member exactly when the last Join or
   Leave of it in the run was a Join, or, when the run has neither, when it
   was a member at the start. Forward and Submit events never matter.
   */
  lemma {:induction false} MembershipHistory(h: Hub, t: seq<Input>, c: Handle)
    requires h.Valid() && Replay(h, t).Ran?
    ensures c in Replay(h, t).run.hub.clients <==>
            (match Latest(t, c) case Some(joined) => joined case None => c in h.clients)
    decreases |t|
  {
    if |t| > 0 {
      var p := t[..|t| - 1];
      MembershipHistory(h, p, c);
    }
  }

  /** Some Join of `c` in the trace is followed by no Leave of `c`. */
  ghost predicate JoinedAndNotLeft(t: seq<Input>, c: Handle)
  {
    exists i :: 0 <= i < |t| && t[i].event == Join(c) &&
      forall j :: i < j < |t| ==> t[j].event != Leave(c)
  }

  /** The latest Join/Leave of `c` is a Join exactly when some Join of `c` has no later Leave. */
  lemma {:induction false} LatestIsJoin(t: seq<Input>, c: Handle)
    ensures Latest(t, c) == Some(true) <==> JoinedAndNotLeft(t, c)
    decreases |t|
  {
    if |t| > 0 {
      var n := |t| - 1;
      var p := t[..n];
      LatestIsJoin(p, c);
      if t[n].event == Join(c) {
      } else if t[n].event == Leave(c) {
      } else {
        if JoinedAndNotLeft(t, c) {
          var i :| 0 <= i < |t| && t[i].event == Join(c) &&
            forall j :: i < j < |t| ==> t[j].event != Leave(c);
          assert i < n && p[i] == t[i];
          assert forall j :: i < j < |p| ==> p[j] == t[j];
          assert JoinedAndNotLeft(p, c);
        }
        if JoinedAndNotLeft(p, c) {
          var i :| 0 <= i < |p| && p[i].event == Join(c) &&
            forall j :: i < j < |p| ==> p[j].event != Leave(c);
          assert t[i] == p[i];
          assert forall j :: i < j < |t| ==> t[j].event != Leave(c);
          assert JoinedAndNotLeft(t, c);
        }
      }
    }
  }

  /**
   From a freshly built server, a handle is a member after a run if and only if
   some Join of it was processed and no Leave of it has been processed since.
   */
  lemma MembershipFromNewServer(t: seq<Input>, c: Handle)
    requires Replay(NewServer(), t).Ran?
    ensures c in Replay(NewServer(), t).run.hub.clients <==> JoinedAndNotLeft(t, c)
  {
    MembershipHistory(NewServer(), t, c);
    LatestIsJoin(t, c);
  }

  /**
   `Forward` loses nothing and reorders nothing: the messages broadcast so far
   followed by those still queued are the initial queue followed by
   everything enqueued, in order.
   */
  lemma {:induction false} QueueIsFifo(h: Hub, t: seq<Input>)
    requires h.Valid() && Replay(h, t).Ran?
    ensures Replay(h, t).run.broadcasts + Replay(h, t).run.hub.queue
         == h.queue + Replay(h, t).run.enqueued
    decreases |t|
  {
    if |t| > 0 {
      var p := t[..|t| - 1];
      QueueIsFifo(h, p);
      var pr := Replay(h, p).run;
      var last := t[|t| - 1];
      var r := Step(pr.hub, last.event, last.failed);
      var out := if r.broadcast.Some? then [r.broadcast.value] else [];
      assert t == p + [last];
      ReplaySnoc(h, p, last);
      var run := Replay(h, t).run;
      assert run == Run(r.hub, pr.enqueued + r.enqueued, pr.broadcasts + out);
      Regroup(pr.broadcasts, pr.hub.queue, h.queue, pr.enqueued, r.enqueued, out, r.hub.queue);
    }
  }

  /** The sequence algebra of one FIFO step. */
  lemma Regroup<T>(sent: seq<T>, q: seq<T>, q0: seq<T>, added: seq<T>, e: seq<T>, out: seq<T>, q': seq<T>)
    requires sent + q == q0 + added
    requires q + e == out + q'
    ensures (sent + out) + q' == q0 + (added + e)
  {
    calc {
      (sent + out) + q';
      sent + (out + q');
      sent + (q + e);
      (sent + q) + e;
      (q0 + added) + e;
      q0 + (added + e);
    }
  }

  /**
   Each Join and Leave concerns only its own handle: a run with no Join or
   Leave of `c` leaves the membership of `c` as it was, whatever else happens.
   */
  lemma {:induction false} UntouchedHandleKeepsMembership(h: Hub, t: seq<Input>, c: Handle)
    requires h.Valid() && Replay(h, t).Ran?
    requires forall i :: 0 <= i < |t| ==> t[i].event != Join(c) && t[i].event != Leave(c)
    ensures c in Replay(h, t).run.hub.clients <==> c in h.clients
    decreases |t|
  {
    if |t| > 0 {
      UntouchedHandleKeepsMembership(h, t[..|t| - 1], c);
    }
  }

  /** `n` submissions of the same line. */
  function Submissions(m: Message, n: nat): (t: seq<Input>)
    ensures |t| == n
    ensures forall i :: 0 <= i < n ==> t[i] == Input(Submit(m), {})
  {
    seq(n, i => Input(Submit(m), {}))
  }

  /**
   Handlers can fill `Forward` before `Run` drains it: after 100 submissions
   into a fresh server the queue is full, and a Join arriving then cannot be
   processed. In the source, `Run` has already added the member at that point
   and then waits forever on its own push, since it is the only reader.
   */
  lemma {:induction false} FullQueueIsReachable(m: Message, c: Handle)
    ensures Replay(NewServer(), Submissions(m, Capacity)).Ran?
    ensures |Replay(NewServer(), Submissions(m, Capacity)).run.hub.queue| == Capacity
    ensures Replay(NewServer(), Submissions(m, Capacity) + [Input(Join(c), {})]) == Stalled(Capacity)
  {
    SubmissionsFill(m, Capacity);
    ReplaySnoc(NewServer(), Submissions(m, Capacity), Input(Join(c), {}));
  }

  /** Each submission into a fresh server adds exactly one queued message. */
  lemma {:induction false} SubmissionsFill(m: Message, n: nat)
    requires n <= Capacity
    ensures Replay(NewServer(), Submissions(m, n)).Ran?
    ensures |Replay(NewServer(), Submissions(m, n)).run.hub.queue| == n
  {
    if n > 0 {
      SubmissionsFill(m, n - 1);
      assert Submissions(m, n)[..n - 1] == Submissions(m, n - 1);
    }
  }

  /**
   Leave is idempotent: two Leaves of a member remove it once and queue one
   left notice.
   */
  lemma LeaveTwice(h: Hub, c: Handle)
    requires h.Valid() && c in h.clients && |h.queue| < Capacity
    ensures Replay(h, [Input(Leave(c), {}), Input(Leave(c), {})]).Ran?
    ensures Replay(h, [Input(Leave(c), {}), Input(Leave(c), {})]).run.hub.clients == h.clients - {c}
    ensures Replay(h, [Input(Leave(c), {}), Input(Leave(c), {})]).run.enqueued == [LeftNotice(c.username)]
  {
    var x := Input(Leave(c), {});
    ReplaySnoc(h, [], x);
    assert [] + [x] == [x];
    ReplaySnoc(h, [x], x);
    assert [x] + [x] == [x, x];
  }

  /**
   Leave is idempotent whatever happens in between: once the latest Join/Leave
   of `c` in a run is a Leave, a further Leave of `c` (the handler's deferred
   one or a failed write's) is always processed and changes nothing: no
   membership, no queued notice, no broadcast.
   */
  lemma LateLeaveIsNoOp(h: Hub, t: seq<Input>, c: Handle, failed: set<Handle>)
    requires h.Valid() && Replay(h, t).Ran? && Latest(t, c) == Some(false)
    ensures Replay(h, t + [Input(Leave(c), failed)]).Ran?
    ensures Replay(h, t + [Input(Leave(c), failed)]).run == Replay(h, t).run
  {
    MembershipHistory(h, t, c);
    ReplaySnoc(h, t, Input(Leave(c), failed));
  }

}
