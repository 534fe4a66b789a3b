# Broadcast hub — a Dafny model

This project models the broadcast hub of a small websocket chat relay
(`internal/server/server.go`). Clients connect with a username. Each line a
client sends is rebroadcast to every connected client as `"<username>: <text>"`.
Joins and departures are announced as `"user <name> joined"` and
`"user <name> left"`.

In the Go code one goroutine, `Run`, owns the membership set `Clients`. It takes
events one at a time from three channels: `Join`, `Leave`, and `Forward`. `Forward`
is buffered with capacity 100. The model treats the hub as a sequential state
machine:

- `Hub.Hub` is the immutable state: a set of handles and the buffered contents
  of `Forward`, oldest first.
- `Hub.Step` processes one event: `Join`, `Leave`, `Forward`, or `Submit`. A
  `Submit` is a handler's send into `Forward`.
- The outcome of each socket write is an input to `Step`: `failed` is the set of
  handles whose write returns an error.
- A failed write becomes a pending leave in the step's `leaves` output. In Go
  this is the goroutine that sends the handle on `Leave`.
- `Hub.Enabled` says when an event's channel operations can complete.
  `Trace.Replay` runs a sequence of events. It reports `Stalled` at the first
  event that would block.

Modules: `Options` is an Option type. `Messages` holds the wire texts and
their decoders. `Hub` holds the state and `Step`. `FanOut` holds the write loops
of `Run` and `broadcastServerShutdown`. `Trace` covers runs over event
sequences. `Session` is the per-connection `socketHandler`.

Design choices the code settles:

- A joining client receives its own joined notice. The handle is added before
  the notice is queued, and the notice is fanned out later to whoever is a
  member then.
- Usernames are neither unique nor validated. Handles are compared by identity
  (`Handle.id`, standing for the Go pointer), not by name.
- The capacity 100 is a constant.

## Model

| member | source | states |
|---|---|---|
| Hub.NewServer | internal/server/server.go:26-33 | a new server has no members and an empty `Forward` queue, within the capacity of 100 |
| Hub.Step | internal/server/server.go:67-93 | Join makes the handle a member, changes no other membership and queues exactly "user <name> joined", even for an existing member; Leave removes exactly that handle and queues "user <name> left" if it was a member, and otherwise changes nothing and queues nothing; Forward leaves membership unchanged, dequeues the oldest message, delivers it to every snapshot member whose write succeeds, and yields pending leaves for exactly the members whose write failed; the queue acts as a FIFO and never exceeds 100 |
| Hub.Enabled | internal/server/server.go:63-80 | when the channel operations of an event can complete: a Forward needs a buffered message; a handler's submission, a Join and a Leave of a member each need a free slot in `Forward` for the message they push; a Leave of a non-member pushes nothing and is always ready |
| Hub.RejoinRenotifies | internal/server/server.go:70-73 | Join does not check for an existing member: a repeated join leaves the set as it was but queues a second joined notice |
| Hub.FullQueueBlocksNotices | internal/server/server.go:72-77 | with `Forward` full, no Join and no Leave of a member can proceed, a Leave of a non-member still can, no handler can submit, and a Forward can still proceed |
| Hub.FailureIsolation | internal/server/server.go:80-91 | a member whose own write succeeds receives the broadcast and is not scheduled to leave, whichever other writes fail |
| FanOut.WriteAll | internal/server/server.go:81-91 | the fan-out loop writes to each member exactly once, in some order, and splits the members into delivered and pending-leave exactly by write outcome |
| FanOut.RunForward | internal/server/server.go:80-91 | the loop-based Forward case computes the same step as the functional model and writes each snapshot member exactly once |
| FanOut.BroadcastShutdown | internal/server/server.go:96-105 | every member gets the shutdown notice followed by a close frame, each member once; a failed notice write skips neither its close frame nor any other member, and no member is removed |
| Trace.Replay | internal/server/server.go:67-93 | a run keeps the queue within capacity, and a stalled run stops at one of its own events |
| Trace.MembershipHistory | internal/server/server.go:70-79 | after any run, a handle is a member iff its latest Join/Leave was a Join (or it has none and was a member at the start); Forward and Submit events never affect membership |
| Trace.LatestIsJoin | internal/server/server.go:70-79 | the latest Join/Leave of a handle is a Join iff some Join of it has no later Leave |
| Trace.MembershipFromNewServer | internal/server/server.go:70-79 | starting from a new server, a handle is a member iff some Join of it was processed and no Leave of it since |
| Trace.UntouchedHandleKeepsMembership | internal/server/server.go:70-79 | a run with no Join or Leave of a handle does not change whether that handle is a member |
| Trace.QueueIsFifo | internal/server/server.go:63-80 | `Forward` drops and reorders nothing: the broadcasts so far followed by the queue equal the initial queue followed by everything enqueued |
| Trace.FullQueueIsReachable | internal/server/server.go:63-72 | 100 handler submissions fill `Forward` on a fresh server, after which a Join cannot be processed |
| Trace.LeaveTwice | internal/server/server.go:74-79 | two consecutive Leaves of a member produce one removal and one left notice |
| Trace.LateLeaveIsNoOp | internal/server/server.go:74-89 | once the latest Join/Leave of a handle in any run is a Leave, a further Leave of it (the handler's deferred one or a failed write's), with any events in between, is always processed and changes nothing: no membership, no queued notice, no broadcast |
| Session.Cleanup | internal/server/server.go:48-54 | the guarded cleanup sets the `left` flag and sends one Leave of its own handle only when the flag was clear |
| Session.AtMostOneLeave | internal/server/server.go:48-54 | however many times the guarded cleanup runs, it sends at most one Leave, and exactly one when the flag starts clear and it runs at all |
| Session.Serve | internal/server/server.go:48-64 | a handler sends its Join first, then one `"<username>: <text>"` per received text in order, then its single Leave last; it sends no other Join or Leave of its handle |
| Session.SoleSession | internal/server/server.go:56-79 | a lone session with no broadcast in between, and with room in `Forward` for all of its `n + 2` messages (queued length plus `n + 2` at most 100), queues its joined notice, its lines in order, and its left notice; afterwards it is no longer a member and no other membership changed |
| Session.SessionAmidForwards | internal/server/server.go:48-80 | after the first k events of a session, with any Forward events interleaved, exactly the first k of its notices and lines are queued, and the handle is a member from its Join until its Leave while no other membership changes |
| Session.SessionWithForwards | internal/server/server.go:48-80 | a complete session amid any broadcasts, with no capacity bound beyond the run not stalling, queues its joined notice, its lines in order, and its left notice; afterwards it is not a member and every other handle's membership is as it was |
| Messages.JoinedNotice | internal/server/server.go:72 | the joined notice reads back as exactly the name it was built from, and never reads as a left notice |
| Messages.LeftNotice | internal/server/server.go:77 | the left notice reads back as exactly the name it was built from, and never reads as a joined notice |
| Messages.ChatLine | internal/server/server.go:63 | given the sender's name, the text of a chat line reads back exactly |
| Messages.NoticeName | internal/server/server.go:72-77 | a name read back from a notice rebuilds that exact notice |
| Messages.NoticesInjective | internal/server/server.go:72-77 | different names give different joined notices and different left notices |
| Messages.JoinedIsNeverLeft | internal/server/server.go:72-77 | no joined notice equals any left notice |
| Messages.ChatText | internal/server/server.go:63 | text read back from a chat line, given its sender, rebuilds that exact line |
| Messages.ChatCanMimicJoinedNotice | internal/server/server.go:63-72 | because nothing is escaped, a user's chat line can be byte-for-byte a system joined notice |

## Left out

- The websocket upgrade, the HTTP mux, listen/serve and `httpServer.Shutdown` (internal/server/server.go:35-41, 108-141) are transport and library calls.
- Goroutines, channel blocking and `select` fairness are not modelled as concurrency. Events are processed one at a time in a given order, and blocking shows up as `Enabled` being false or a run being `Stalled`.
- The goroutine spawned per failed write is the `leaves` output of a step. Whoever drives the model feeds those back as `Leave` events, at any later point.
- Write deadlines, `time.Now`, OS signals, context timeouts and logging are real time or side effects.
- The handler's `defer conn.Close()` and the close frame the client sends are transport effects.
- `internal/client/client.go` (the interactive client) and `cmd/main.go` (flag parsing) are process plumbing. Only the client's username matters here, carried by `Handle`.
- Go map iteration order is unspecified. The fan-out loops pick an arbitrary unvisited member each time, and step outputs are sets.
- FanOut.BroadcastShutdown: takes the membership as a snapshot set. In the source it reads `s.Clients` from the signal goroutine while `Run` may be mutating the map (a data race). It also does not model that `Run` keeps running afterwards.
- Session.SoleSession: needs `Forward` to hold the whole session at once, since it interleaves no broadcasts. `Session.SessionWithForwards` drops that bound for sessions interleaved with any Forward events.
- Hub.Step: a Join, or a Leave of a member, with `Forward` full is not enabled. In the source `Run` would first change the membership, then block for ever on its own push, since it is the only reader of `Forward`. `Trace.FullQueueIsReachable` shows that a full queue is reachable.
- A shutdown state of the hub (refusing joins and messages once the shutdown notice is out) is not modelled: `Run` has none and keeps processing events after `broadcastServerShutdown`, and the model follows the code.
