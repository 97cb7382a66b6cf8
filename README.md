# tcp-checker disconnect detection, modelled in Dafny

tcp-checker finds out that a TCP peer has gone away faster than the
operating system's keep-alive would. The server writes a one-byte heartbeat
every 100 ms to each accepted connection. The client reads those bytes with a
150 ms deadline and redials when the connection is lost. Both sides report
when a connection is established, lost or restored, and the downtime in
between.

This project models the bookkeeping behind those reports, from
`internal/checker/checker.go`:

- `timing.dfy` (module `Timing`): the timing constants and the read deadline.
  Time is a natural number of milliseconds. The value 0 stands for Go's zero
  `time.Time`.
- `registry.dfy` (module `Registry`): the server's disconnect registry
  `LastDisconnectTime`. It is a class holding a `map<string, nat>` from peer IP
  (port dropped) to the time the peer's last connection ended.
  `OnAccept` reports the downtime and deletes the entry. `OnClose` records
  the exit time. `HandleClient` is one whole handler, and `SendHeartbeats` is
  its write loop. Sequences of accept and close events are replayed by the
  function `Replay`. Lemmas relate the registry to the last event of each peer.
- `client.dfy` (module `ClientLoop`): the receiver `RunClient`.
  - `DialFailure` and `DialSuccess` are the outer loop's transitions of
    `connected` and `lastDisconnect`.
  - `ReadLoop` is the inner grace-window read loop.
  - The class `Client` holds the two outer-loop variables. Its method
    `RunClient` runs the outer loop over a finite script of attempts, and is
    proved equal to the function `RunFrom`.
  - Lemmas about `RunFrom` give the order and count of the reports.
- `wrappers.dfy` (module `Wrappers`): an `Option` type.

The model keeps three behaviours of the code that a reader might not expect:
- The registry is keyed by IP, not by connection. A second connection from
  the same IP can be accepted before the first handler exits. The first
  handler's exit then records a disconnect while the second connection is
  still open, and the next accept reports a downtime since that exit
  (`OverlapLeavesStaleEntry`).
- The client's inner loop does not clear `connected` when it gives up on a
  session (internal/checker/checker.go:127-128). A redial that succeeds at once therefore
  reports no "restored" (`QuickRedialReportsNothing`).
- A redial that fails after such a session reports the loss a second time
  (internal/checker/checker.go:85, after line 127), and only then records the disconnect
  time (`LostSessionThenFailedDial`).

The client has only a fixed 150 ms read deadline with a 100 ms grace window
(internal/checker/checker.go:121-129). No adaptive round-trip estimate exists in the code, and
none is modelled.

## Model

| member | source | states |
|---|---|---|
| `Timing.ReadDeadline` | internal/checker/checker.go:12-14 | the read deadline is 150 ms after it is set: strictly past one keep-alive interval and before two |
| `Registry.PeerIdentity` | internal/checker/checker.go:29-30 | the registry key of a connection is its IP alone; the port plays no part |
| `Registry.CloseSeenFromOtherPort` | internal/checker/checker.go:29-56 | a disconnect recorded from one port of an IP is reported as downtime by an accept from another port of that IP, which clears the entry |
| `Registry.AcceptDowntime` | internal/checker/checker.go:33-40 | downtime is reported iff a non-zero disconnect time is recorded for the IP, and then it is now minus that time |
| `Registry.AfterAccept` | internal/checker/checker.go:44-47 | after accept the IP has no entry, every other key keeps its entry and value, and deleting an absent key changes nothing |
| `Registry.AfterClose` | internal/checker/checker.go:54-57 | after the handler exits the IP maps to the exit time and every other key is unchanged |
| `Registry.AcceptReports` | internal/checker/checker.go:37-42 | accept reports "restored" with the downtime exactly when there is one, then always "established" |
| `Registry.ReplayFollowsLastEvent` | internal/checker/checker.go:33-57 | over any sequence of accepts and closes, a peer's entry is absent after its last event is an accept, is that close's time after a close, and is untouched if the peer has no event |
| `Registry.EntryIffDisconnected` | internal/checker/checker.go:44-57 | from an empty registry, a peer has an entry iff its last accept-or-close event is a close, and the entry is that close's time |
| `Registry.ReconnectReportsDowntime` | internal/checker/checker.go:29-40 | reconnecting from any port of an IP whose last connection ended at non-zero time t reports downtime now - t |
| `Registry.NoDowntimeAfterAccept` | internal/checker/checker.go:44-47 | a downtime is never reported twice: a second accept with no close in between reports only "established" |
| `Registry.OverlapLeavesStaleEntry` | internal/checker/checker.go:44-57 | when two connections from one IP overlap, the first one's exit leaves an entry while the second is open, and the next accept reports downtime since that exit |
| `Registry.SendHeartbeats` | internal/checker/checker.go:67-73 | the write loop stops at the first failed write; every earlier write succeeded |
| `Registry.DisconnectRegistry.constructor` | internal/checker/checker.go:22-25 | the registry starts empty |
| `Registry.DisconnectRegistry.OnAccept` | internal/checker/checker.go:32-47 | returns the accept downtime of the old registry and deletes the IP's entry |
| `Registry.DisconnectRegistry.OnClose` | internal/checker/checker.go:49-58 | stores the exit time under the IP |
| `Registry.DisconnectRegistry.HandleClient` | internal/checker/checker.go:28-74 | a handler is accept, heartbeats, then close only once a write fails; registry and reports equal the replay of those events |
| `ClientLoop.DialFailure` | internal/checker/checker.go:82-90 | a failed dial while connected reports the loss once, clears `connected` and records now; otherwise it changes and reports nothing |
| `ClientLoop.DialSuccess` | internal/checker/checker.go:100-108 | a successful dial sets `connected`; it reports only if not connected before: "restored" with downtime now - lastDisconnect if that is non-zero, else "first connection" |
| `ClientLoop.ReportIffTransition` | internal/checker/checker.go:82-108 | each dial reports exactly when it changes `connected` |
| `ClientLoop.ReadLoop` | internal/checker/checker.go:117-133 | every read gets deadline now + 150 ms; the loop stops right after the first failed read more than 100 ms after the last byte, and runs on otherwise |
| `ClientLoop.Received` | internal/checker/checker.go:130-131 | a successful read sets `lastReceived` to its return time; a failed read leaves it unchanged |
| `ClientLoop.IsLoss` | internal/checker/checker.go:124-129 | a read is judged a loss iff it failed and returned more than 100 ms after `lastReceived`; a successful read never is |
| `ClientLoop.ShortDelayTolerated` | internal/checker/checker.go:124-132 | a read failing within 100 ms of the last byte is no loss and leaves `lastReceived` unchanged |
| `ClientLoop.LastReceivedIsLastSuccess` | internal/checker/checker.go:118-131 | `lastReceived` is the return time of the last successful read, or the session start if none succeeded |
| `ClientLoop.LastReceivedNotLater` | internal/checker/checker.go:118-131 | with a clock that never runs backwards, `lastReceived` is never later than the start of the next read |
| `ClientLoop.TimeoutIsLoss` | internal/checker/checker.go:121-129 | with such a clock, a read that fails at its deadline always ends the session: the grace window only spares reads that fail early |
| `ClientLoop.RunFrom` | internal/checker/checker.go:81-134 | the reference run of the outer loop: at most two reports per attempt (one dial report and one read-loop loss), and a run that ends inside a session ends connected |
| `ClientLoop.ConnectsBalanceDialLosses` | internal/checker/checker.go:81-108 | over any run, the count of connect reports minus the count of dial-failure loss reports equals the change of `connected` |
| `ClientLoop.ReportsAlternate` | internal/checker/checker.go:81-108 | over any run, ignoring read-loop losses, connect reports and dial-failure loss reports strictly alternate, starting according to `connected` |
| `ClientLoop.NoFirstConnectionOnceConnected` | internal/checker/checker.go:100-107 | once connected, or with a non-zero disconnect recorded, "first connection" is never reported again |
| `ClientLoop.FirstConnectionAtMostOnce` | internal/checker/checker.go:78-108 | from the initial state "first connection" is reported at most once, as the first report |
| `ClientLoop.FailuresWhileDisconnected` | internal/checker/checker.go:83-90 | failed dials while disconnected change nothing and report nothing |
| `ClientLoop.RestoredMeasuresFromFirstFailure` | internal/checker/checker.go:84-103 | after failures starting at t1 and a success at t2, the client reports the loss then "restored" with downtime t2 - t1, measured from the first failure |
| `ClientLoop.QuickRedialReportsNothing` | internal/checker/checker.go:100-134 | after a lost session, a redial that succeeds at once reports no "restored" because `connected` is still set |
| `ClientLoop.LostSessionThenFailedDial` | internal/checker/checker.go:84-128 | after a lost session, a failed redial reports a second loss and only then records the disconnect time |
| `ClientLoop.Client.constructor` | internal/checker/checker.go:78-79 | the client starts not connected with the zero disconnect time |
| `ClientLoop.Client.OnDialFailure` | internal/checker/checker.go:83-90 | updates the fields and reports as `DialFailure` says |
| `ClientLoop.Client.OnDialSuccess` | internal/checker/checker.go:100-108 | updates the fields and reports as `DialSuccess` says |
| `ClientLoop.Client.RunClient` | internal/checker/checker.go:77-136 | the outer loop with its read loops gives the final state and reports of `RunFrom` |

## Left out

- Sockets (`net.Dial`, `Read`, `Write`, `Close`, `SetNoDelay`, the keep-alive settings, `SetReadDeadline`) are foreign I/O. They appear only as success or failure outcomes of dials, reads and writes. `Close` errors are only logged, so they are not modelled.
- `time.Now`, `time.Since` and `time.Sleep` are replaced by time values passed with each event. The 100 ms back-off after a failed dial and between heartbeats is not modelled as a delay.
- The clock is read once per successful dial: the downtime at the dial and the session's initial `lastReceived` use the same time.
- The float computation of `ReadTimeout` is the exact fraction 3/2 of 100 ms. Times are whole milliseconds, not nanosecond `time.Duration`s.
- The goroutine per connection and `lastDisconnectMutex` are not modelled. Each registry lookup, delete and store is one atomic step, and the lookup and delete on accept form a single step rather than two critical sections.
- Log message formats are replaced by report datatypes.
- The server and client `main` functions (flag parsing, `net.Listen`, the accept loop) are plumbing and are not part of this model.
- `ClientLoop.Client.RunClient`: the source loops forever. The model runs over a finite script of attempts, and stops when the script ends or at a session that is never lost.
- `Registry.DisconnectRegistry.HandleClient`: the source writes until a write fails. The model stops at the end of the given write outcomes, leaving the handler running if none failed.
