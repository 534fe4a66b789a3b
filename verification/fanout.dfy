/**
 The two fan-out loops of internal/server/server.go, written as loops over the
 membership set. Go's `for c := range s.Clients` visits the keys in an
 unspecified order; here each iteration picks an arbitrary member not yet
 visited, so the proofs hold for every order.
 */
module FanOut {

  import opened Options
  import opened Messages
  import opened Hub

  /** No handle occurs twice in a write order. */
  predicate Distinct(order: seq<Handle>)
  {
    forall i, j :: 0 <= i < j < |order| ==> order[i] != order[j]
  }

  /**
   The `Forward` case of `Run`: writes the message to each member once, in some
   order, and collects the members whose write failed; each of those gets a
   goroutine that sends it on `Leave`, which is what `leaves` stands for.
   */
  method WriteAll(members: set<Handle>, failed: set<Handle>)
    returns (order: seq<Handle>, delivered: set<Handle>, leaves: set<Handle>)
    ensures Distinct(order)
    ensures forall c :: c in order <==> c in members
    ensures |order| == |members|
    ensures forall c :: c in delivered <==> c in members && c !in failed
    ensures forall c :: c in leaves <==> c in members && c in failed
  {
    var rest := members;
    order, delivered, leaves := [], {}, {};
    while rest != {}
      invariant rest <= members
      invariant Distinct(order)
      invariant forall c :: c in order <==> c in members && c !in rest
      invariant |order| + |rest| == |members|
      invariant forall c :: c in delivered <==> c in order && c !in failed
      invariant forall c :: c in leaves <==> c in order && c in failed
      decreases rest
    {
      var c :| c in rest;
      order := order + [c];
      if c in failed {
        leaves := leaves + {c};
      } else {
        delivered := delivered + {c};
      }
      rest := rest - {c};
    }
  }

  /**
   `Run`'s `Forward` case computed with the loop: the result is the step the
   functional model prescribes, and every member of the snapshot is written
   exactly once.
   */
  method RunForward(h: Hub, failed: set<Handle>) returns (r: StepResult, order: seq<Handle>)
    requires h.Valid() && Enabled(h, Forward)
    ensures r == Step(h, Forward, failed)
    ensures Distinct(order) && |order| == |h.clients|
    ensures forall c :: c in order <==> c in h.clients
  {
    var msg := h.queue[0];
    var delivered, leaves;
    order, delivered, leaves := WriteAll(h.clients, failed);
    r := StepResult(Hub(h.clients, h.queue[1..]), [], Some(msg), delivered, leaves);
  }

  /** The kind of frame a shutdown writes. */
  datatype Payload = Text(msg: Message) | Close

  /** One attempted write to one handle. */
  datatype Frame = Frame(to: Handle, payload: Payload)

  /**
   `broadcastServerShutdown`: for every member, write the shutdown notice and
   then a close frame. A failed notice write is only logged, so it neither
   skips that member's close frame nor any other member, and no member is
   removed.
   */
  method BroadcastShutdown(members: set<Handle>, failed: set<Handle>)
    returns (frames: seq<Frame>, delivered: set<Handle>)
    ensures |frames| == 2 * |members|
    ensures forall c :: c in members <==> Frame(c, Text(ShutdownNotice)) in frames
    ensures forall i :: 0 <= i < |frames| / 2 ==>
              && frames[2 * i].payload == Text(ShutdownNotice)
              && frames[2 * i + 1] == Frame(frames[2 * i].to, Close)
    ensures forall i, j :: 0 <= i < j < |frames| / 2 ==> frames[2 * i].to != frames[2 * j].to
    ensures forall c :: c in delivered <==> c in members && c !in failed
  {
    var rest := members;
    frames, delivered := [], {};
    while rest != {}
      invariant rest <= members
      invariant |frames| + 2 * |rest| == 2 * |members|
      invariant |frames| % 2 == 0
      invariant forall c :: c in members && c !in rest <==> Frame(c, Text(ShutdownNotice)) in frames
      invariant forall f :: f in frames ==> f.to in members && f.to !in rest
      invariant forall i :: 0 <= i < |frames| / 2 ==>
                  && frames[2 * i].payload == Text(ShutdownNotice)
                  && frames[2 * i + 1] == Frame(frames[2 * i].to, Close)
      invariant forall i, j :: 0 <= i < j < |frames| / 2 ==> frames[2 * i].to != frames[2 * j].to
      invariant forall c :: c in delivered <==> c in members && c !in rest && c !in failed
      decreases rest
    {
      var c :| c in rest;
      frames := frames + [Frame(c, Text(ShutdownNotice)), Frame(c, Close)];
      if c !in failed {
        delivered := delivered + {c};
      }
      rest := rest - {c};
    }
  }

}
