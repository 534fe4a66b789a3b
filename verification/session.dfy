/**
 The per-connection handler `socketHandler` of internal/server/server.go, from
 the point where the websocket upgrade has succeeded. The handler sends its
 handle on `Join`, then submits one chat line per received text until a read
 fails, and on return its deferred cleanup sends the handle on `Leave` unless
 the `left` flag says that was already done.
 */
module Session {

  import opened Messages
  import opened Hub
  import opened Trace

  /** The chat lines a user's texts turn into, in order. */
  function ChatLines(name: string, texts: seq<string>): (ms: seq<Message>)
    ensures |ms| == |texts|
  {
    seq(|texts|, i requires 0 <= i < |texts| => ChatLine(name, texts[i]))
  }

  /**
   The deferred cleanup guarded by `left`: it sends a Leave only the first
   time, and always leaves the flag set.
   */
  function Cleanup(c: Handle, left: bool): (r: (bool, seq<Event>))
    ensures r.0
    ensures forall e :: e in r.1 ==> e == Leave(c)
    ensures |r.1| == (if left then 0 else 1)
  {
    if !left then (true, [Leave(c)]) else (true, [])
  }

  /** The guarded cleanup triggered `n` times in a row, starting from flag `left`. */
  function RepeatCleanup(c: Handle, left: bool, n: nat): seq<Event>
    decreases n
  {
    if n == 0 then []
    else
      var (left', sent) := Cleanup(c, left);
      sent + RepeatCleanup(c, left', n - 1)
  }

  /**
   However often the cleanup is triggered, at most one Leave is sent: exactly
   one when the flag starts clear and the cleanup runs at all.
   */
  lemma {:induction false} AtMostOneLeave(c: Handle, left: bool, n: nat)
    ensures RepeatCleanup(c, left, n) == (if !left && n > 0 then [Leave(c)] else [])
    decreases n
  {
    if n > 0 {
      AtMostOneLeave(c, true, n - 1);
    }
  }

  /**
   The events of one connection whose reads deliver `received` and then fail:
   its Join first, one chat line per text in order, and its Leave last.
   */
  predicate IsSession(c: Handle, received: seq<string>, es: seq<Event>)
  {
    && |es| == |received| + 2
    && es[0] == Join(c)
    && es[|es| - 1] == Leave(c)
    && forall i :: 0 <= i < |received| ==> es[i + 1] == Submit(ChatLine(c.username, received[i]))
  }

  /** The handler body: Join, the read loop, then the deferred guarded Leave. */
  method Serve(c: Handle, received: seq<string>) returns (es: seq<Event>)
    ensures IsSession(c, received, es)
    ensures forall i :: 0 <= i < |es| ==> (es[i] == Join(c) <==> i == 0)
    ensures forall i :: 0 <= i < |es| ==> (es[i] == Leave(c) <==> i == |es| - 1)
  {
    var left := false;
    es := [Join(c)];
    var i := 0;
    while i < |received|
      invariant 0 <= i <= |received|
      invariant |es| == i + 1 && es[0] == Join(c)
      invariant forall k :: 0 <= k < i ==> es[k + 1] == Submit(ChatLine(c.username, received[k]))
    {
      es := es + [Submit(ChatLine(c.username, received[i]))];
      i := i + 1;
    }
    var cleanup := Cleanup(c, left);
    left := cleanup.0;
    es := es + cleanup.1;
    assert forall i :: 0 < i < |es| - 1 ==> es[i] == Submit(ChatLine(c.username, received[i - 1]));
  }

  /** The events as hub inputs; write outcomes do not matter to these events. */
  function Quiet(es: seq<Event>): (t: seq<Input>)
    ensures |t| == |es|
    ensures forall i :: 0 <= i < |es| ==> t[i].event == es[i]
  {
    seq(|es|, i requires 0 <= i < |es| => Input(es[i], {}))
  }

  /** The first `k` events of a lone session: joined, and the first `k - 1` lines queued. */
  lemma {:induction false} SessionPrefix(h: Hub, c: Handle, received: seq<string>, es: seq<Event>, k: nat)
    requires h.Valid() && IsSession(c, received, es)
    requires |h.queue| + |received| + 2 <= Capacity
    requires 1 <= k <= |received| + 1
    ensures Replay(h, Quiet(es)[..k]).Ran?
    ensures Replay(h, Quiet(es)[..k]).run.hub.clients == h.clients + {c}
    ensures Replay(h, Quiet(es)[..k]).run.enqueued
         == [JoinedNotice(c.username)] + ChatLines(c.username, received[..k - 1])
    ensures Replay(h, Quiet(es)[..k]).run.hub.queue == h.queue + Replay(h, Quiet(es)[..k]).run.enqueued
    decreases k
  {
    var t := Quiet(es)[..k];
    if k == 1 {
      ReplaySnoc(h, [], t[0]);
      assert [] + [t[0]] == t;
      assert ChatLines(c.username, received[..0]) == [];
    } else {
      SessionPrefix(h, c, received, es, k - 1);
      var p := Quiet(es)[..k - 1];
      assert t == p + [t[k - 1]];
      ReplaySnoc(h, p, t[k - 1]);
      assert t[k - 1].event == Submit(ChatLine(c.username, received[k - 2]));
      assert ChatLines(c.username, received[..k - 1])
          == ChatLines(c.username, received[..k - 2]) + [ChatLine(c.username, received[k - 2])];
    }
  }

  /**
   A session on its own, with room in `Forward` for its notices and lines:
   everyone reading the queue sees "user <name> joined", then the user's lines
   in the order received, then "user <name> left"; afterwards the handle is no
   longer a member and nobody else's membership has changed.
   */
  lemma SoleSession(h: Hub, c: Handle, received: seq<string>, es: seq<Event>)
    requires h.Valid() && IsSession(c, received, es)
    requires |h.queue| + |received| + 2 <= Capacity
    ensures Replay(h, Quiet(es)).Ran?
    ensures Replay(h, Quiet(es)).run.enqueued
         == [JoinedNotice(c.username)] + ChatLines(c.username, received) + [LeftNotice(c.username)]
    ensures c !in Replay(h, Quiet(es)).run.hub.clients
    ensures forall d :: d != c ==> (d in Replay(h, Quiet(es)).run.hub.clients <==> d in h.clients)
  {
    var n := |received| + 1;
    SessionPrefix(h, c, received, es, n);
    var t := Quiet(es);
    assert t == t[..n] + [t[n]];
    assert received[..n - 1] == received;
    ReplaySnoc(h, t[..n], t[n]);
  }

  /** The events of a run other than its Forward events, in order. */
  function NonForward(t: seq<Input>): (es: seq<Event>)
    ensures |es| <= |t|
    ensures forall e :: e in es ==> !e.Forward?
    decreases |t|
  {
    if |t| == 0 then []
    else NonForward(t[..|t| - 1]) + (if t[|t| - 1].event.Forward? then [] else [t[|t| - 1].event])
  }

  /** Everything one session puts on `Forward`, in order. */
  function SessionNotices(c: Handle, received: seq<string>): (ms: seq<Message>)
    ensures |ms| == |received| + 2
  {
    [JoinedNotice(c.username)] + ChatLines(c.username, received) + [LeftNotice(c.username)]
  }

  /**
   After the first `k` events of a session: exactly its first `k` notices are
   queued, and the handle is a member from its Join until its Leave while no
   other membership differs from `start`.
   */
  predicate SessionProgress(start: set<Handle>, c: Handle, received: seq<string>, es: seq<Event>, k: nat, run: Run)
    requires k <= |es| == |received| + 2
  {
    && run.enqueued == SessionNotices(c, received)[..k]
    && (k == 0 ==> run.hub.clients == start)
    && (0 < k < |es| ==> run.hub.clients == start + {c})
    && (k == |es| ==> run.hub.clients == start - {c})
  }

  /**
   A session whose first `k` events have been processed, with any number of
   Forward events between them: exactly the first `k` of its notices and
   lines have been queued; the handle is a member from its Join until its
   Leave; and nobody else's membership has changed.
   */
  lemma {:induction false} SessionAmidForwards(h: Hub, c: Handle, received: seq<string>, es: seq<Event>, t: seq<Input>)
    requires h.Valid() && IsSession(c, received, es) && Replay(h, t).Ran?
    requires |NonForward(t)| <= |es| && NonForward(t) == es[..|NonForward(t)|]
    ensures SessionProgress(h.clients, c, received, es, |NonForward(t)|, Replay(h, t).run)
    decreases |t|
  {
    if |t| > 0 {
      var n := |t| - 1;
      var p := t[..n];
      var last := t[n];
      var k := |NonForward(t)|;
      assert t == p + [last];
      ReplaySnoc(h, p, last);
      var pr := Replay(h, p).run;
      var r := Step(pr.hub, last.event, last.failed);
      assert Replay(h, t).run.hub == r.hub;
      assert Replay(h, t).run.enqueued == pr.enqueued + r.enqueued;
      if last.event.Forward? {
        assert NonForward(t) == NonForward(p);
        SessionAmidForwards(h, c, received, es, p);
      } else {
        assert NonForward(t) == NonForward(p) + [last.event];
        assert NonForward(p) == es[..k][..k - 1] == es[..k - 1];
        SessionAmidForwards(h, c, received, es, p);
        SessionAdvance(h.clients, c, received, es, k, pr.hub, pr.enqueued, last.failed);
        assert last.event == es[k - 1];
      }
    }
  }

  /**
   One step of a session: if its first `k - 1` events have queued the first
   `k - 1` notices, processing its `k`-th event queues the `k`-th notice and
   moves the handle in or out of the membership at the right moments.
   */
  lemma SessionAdvance(start: set<Handle>, c: Handle, received: seq<string>, es: seq<Event>, k: nat,
                       before: Hub, queued: seq<Message>, failed: set<Handle>)
    requires IsSession(c, received, es) && 1 <= k <= |es|
    requires before.Valid() && Enabled(before, es[k - 1])
    requires SessionProgress(start, c, received, es, k - 1, Run(before, queued, []))
    ensures SessionProgress(start, c, received, es, k,
              Run(Step(before, es[k - 1], failed).hub, queued + Step(before, es[k - 1], failed).enqueued, []))
  {
    SessionEventQueues(c, received, es, k);
  }

  /** The `k`-th event of a session queues the `k`-th of its notices. */
  lemma SessionEventQueues(c: Handle, received: seq<string>, es: seq<Event>, k: nat)
    requires IsSession(c, received, es) && 1 <= k <= |es|
    ensures var notices := SessionNotices(c, received);
      && notices[..k] == notices[..k - 1] + [notices[k - 1]]
      && (k == 1 ==> es[k - 1] == Join(c) && notices[k - 1] == JoinedNotice(c.username))
      && (1 < k < |es| ==> es[k - 1] == Submit(notices[k - 1]))
      && (k == |es| ==> es[k - 1] == Leave(c) && notices[k - 1] == LeftNotice(c.username))
  {
    var notices := SessionNotices(c, received);
    assert notices[..k] == notices[..k - 1] + [notices[k - 1]];
    if 1 < k < |es| {
      assert es[(k - 2) + 1] == Submit(ChatLine(c.username, received[k - 2]));
    }
  }

  /**
   A complete session amid any broadcasts: however Forward events interleave
   with it, the session queues its joined notice, its lines in order, and its
   left notice, and afterwards the handle is not a member while every other
   handle's membership is as it was. Only the run not stalling is assumed,
   not that the session fits in `Forward` at once.
   */
  lemma SessionWithForwards(h: Hub, c: Handle, received: seq<string>, es: seq<Event>, t: seq<Input>)
    requires h.Valid() && IsSession(c, received, es) && Replay(h, t).Ran?
    requires NonForward(t) == es
    ensures Replay(h, t).run.enqueued == SessionNotices(c, received)
    ensures c !in Replay(h, t).run.hub.clients
    ensures forall d :: d != c ==> (d in Replay(h, t).run.hub.clients <==> d in h.clients)
  {
    assert es[..|es|] == es;
    SessionAmidForwards(h, c, received, es, t);
    assert SessionNotices(c, received)[..|es|] == SessionNotices(c, received);
  }

}
