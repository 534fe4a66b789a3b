/**
 The broadcast hub of internal/server/server.go as a sequential state machine.

 The Go `Server` owns a map used as a set of client pointers and a buffered
 `Forward` channel of capacity 100. Its `Run` loop takes one event at a time
 from the `Join`, `Leave` and `Forward` channels. Here the hub is an immutable
 value, each event is processed by the pure function `Step`, and the outcome of
 every socket write is an input: `failed` is the set of handles whose write
 returns an error.
 */
module Hub {

  import opened Options
  import opened Messages

  /**
   A client handle. The Go code compares `*client.Client` pointers, so two
   connections with the same username are still distinct handles; `id` stands
   for that pointer identity.
   */
  datatype Handle = Handle(id: nat, username: string)

  /** The buffer size of the `Forward` channel. */
  const Capacity: nat := 100

  /** Hub state: the membership set and the pending contents of `Forward`, oldest first. */
  datatype Hub = Hub(clients: set<Handle>, queue: seq<Message>) {
    /** A buffered channel never holds more than its capacity. */
    predicate Valid() {
      |queue| <= Capacity
    }
  }

  /**
   One event of the hub. `Join`, `Leave` and `Forward` are the three cases of
   `Run`'s select (receive a handle to add, a handle to remove, a message to
   fan out). `Submit` is a connection handler's send of a chat line into the
   same `Forward` channel; it is not a case of `Run`, but it changes the state
   that `Run` reads.
   */
  datatype Event =
    | Join(c: Handle)
    | Leave(c: Handle)
    | Forward
    | Submit(msg: Message)

  /** What one event does: the new state and what can be observed of it. */
  datatype StepResult = StepResult(
    hub: Hub,
    // messages appended to `Forward` by this event, in order
    enqueued: seq<Message>,
    // the message taken off `Forward` and fanned out, if any
    broadcast: Option<Message>,
    // members whose write of the broadcast succeeded
    delivered: set<Handle>,
    // members whose write failed; each becomes a pending Leave event
    leaves: set<Handle>)

  /** The hub as `NewServer` builds it: no members and nothing buffered. */
  function NewServer(): (h: Hub)
    ensures h.Valid()
    ensures forall c: Handle :: c !in h.clients
    ensures |h.queue| == 0
  {
    Hub({}, [])
  }

  /**
   Whether the channel operations an event performs can complete now. A
   receive from `Forward` needs a buffered message. A send into `Forward` needs
   a free slot: a handler's `Submit`, the joined notice that every `Join`
   pushes, and the left notice that a `Leave` of a current member pushes. A
   `Leave` of a non-member pushes nothing and is always ready.
   */
  predicate Enabled(h: Hub, e: Event)
  {
    match e
    case Join(_) => |h.queue| < Capacity
    case Leave(c) => c in h.clients ==> |h.queue| < Capacity
    case Forward => |h.queue| > 0
    case Submit(_) => |h.queue| < Capacity
  }

  /**
   Processes one event.
   - Join: add the handle (no check that it is already a member) and queue
     "user <name> joined".
   - Leave: if the handle is a member, remove it and queue "user <name> left";
     otherwise do nothing.
   - Forward: take the oldest message, write it to every member, and turn each
     failed write into a pending leave; membership is not touched.
   - Submit: append the handler's line to the queue.
   */
  function Step(h: Hub, e: Event, failed: set<Handle>): (r: StepResult)
    requires h.Valid() && Enabled(h, e)
    ensures r.hub.Valid()
    // the queue is FIFO: what was there plus what was added is what left plus what remains
    ensures h.queue + r.enqueued
         == (if r.broadcast.Some? then [r.broadcast.value] else []) + r.hub.queue
    ensures e.Join? ==>
              && (forall d :: d in r.hub.clients <==> d == e.c || d in h.clients)
              && r.enqueued == [JoinedNotice(e.c.username)]
    ensures e.Leave? ==>
              && (forall d :: d in r.hub.clients <==> d != e.c && d in h.clients)
              && r.enqueued == (if e.c in h.clients then [LeftNotice(e.c.username)] else [])
    ensures e.Forward? ==>
              && r.hub.clients == h.clients
              && r.enqueued == []
              && r.broadcast == Some(h.queue[0])
              && r.delivered + r.leaves == h.clients
              && r.delivered !! r.leaves
              && (forall d :: d in r.leaves <==> d in h.clients && d in failed)
    ensures e.Submit? ==> r.hub.clients == h.clients && r.enqueued == [e.msg]
    ensures !e.Forward? ==> r.broadcast == None && r.delivered == {} && r.leaves == {}
  {
    match e
    case Join(c) =>
      var m := JoinedNotice(c.username);
      StepResult(Hub(h.clients + {c}, h.queue + [m]), [m], None, {}, {})
    case Leave(c) =>
      if c in h.clients then
        var m := LeftNotice(c.username);
        StepResult(Hub(h.clients - {c}, h.queue + [m]), [m], None, {}, {})
      else
        StepResult(h, [], None, {}, {})
    case Forward =>
      var snapshot := h.clients;
      StepResult(Hub(snapshot, h.queue[1..]), [], Some(h.queue[0]),
                 snapshot - failed, snapshot * failed)
    case Submit(m) =>
      StepResult(Hub(h.clients, h.queue + [m]), [m], None, {}, {})
  }

  /**
   Join does not look at membership: joining a handle that is already a member
   leaves the set as it was but still queues another joined notice.
   */
  lemma RejoinRenotifies(h: Hub, c: Handle, failed: set<Handle>)
    requires h.Valid() && c in h.clients && |h.queue| < Capacity
    ensures Step(h, Join(c), failed).hub.clients == h.clients
    ensures Step(h, Join(c), failed).hub.queue == h.queue + [JoinedNotice(c.username)]
  {
  }

  /**
   With `Forward` full, no Join and no Leave of a member can be processed: the
   notice they push has nowhere to go. Since `Run` is the only reader of
   `Forward`, in the source such a push never completes.
   */
  lemma FullQueueBlocksNotices(h: Hub, c: Handle)
    requires h.Valid() && |h.queue| == Capacity
    ensures !Enabled(h, Join(c))
    ensures c in h.clients <==> !Enabled(h, Leave(c))
    ensures forall m: Message :: !Enabled(h, Submit(m))
    ensures Enabled(h, Forward)
  {
  }

  /**
   Failure isolation: a member whose own write succeeds receives the message
   whatever happened to the writes of the others.
   */
  lemma FailureIsolation(h: Hub, failed: set<Handle>, c: Handle)
    requires h.Valid() && |h.queue| > 0 && c in h.clients && c !in failed
    ensures c in Step(h, Forward, failed).delivered
    ensures c !in Step(h, Forward, failed).leaves
  {
  }

}
