/**
 * Server side of the checker: the disconnect registry consulted and updated
 * by the per-connection handler.
 *
 * The registry maps a peer's IP address (never its port) to the time its last
 * connection ended. Accepting a connection reports the downtime since that
 * time, if one is recorded and non-zero, and removes the entry so that the
 * same downtime is never reported twice; the end of the handler records the
 * exit time under the same key.
 */
module Registry {
  import opened Wrappers
  import opened Timing

  type IP = string

  /** The remote address of an accepted connection. */
  datatype TcpAddr = TcpAddr(ip: IP, port: nat)

  /** Disconnect times, keyed by peer identity. */
  type Times = map<IP, Millis>

  /** What the handler reports. */
  datatype ServerReport =
    | Restored(peer: IP, downtime: int)
    | Established(peer: IP)
    | ConnectionLost(peer: IP)

  /** Moments in the life of connection handlers, one registry step each. */
  datatype ServerEvent =
    | Accepted(addr: TcpAddr, at: Millis)
    | Closed(addr: TcpAddr, at: Millis)

  /** The registry key of a connection: its IP address, with the port dropped. */
  function PeerIdentity(a: TcpAddr): (k: IP)
    ensures k == a.ip
  {
    a.ip
  }

  /**
   * The downtime reported when a connection from `peer` is accepted at `now`:
   * present exactly when a non-zero disconnect time is recorded for `peer`,
   * and then the time elapsed since it.
   */
  function AcceptDowntime(m: Times, peer: IP, now: Millis): (r: Option<int>)
    ensures r.Some? <==> peer in m && !IsZero(m[peer])
    ensures r.Some? ==> m[peer] + r.value == now
  {
    if peer in m && !IsZero(m[peer]) then Some(Since(now, m[peer])) else None
  }

  /** The registry after an accepted connection has dropped its entry. */
  function AfterAccept(m: Times, peer: IP): (m': Times)
    ensures peer !in m'
    ensures forall k :: k != peer ==> (k in m' <==> k in m)
    ensures forall k :: k in m' ==> m'[k] == m[k]
    ensures peer !in m ==> m' == m
  {
    m - {peer}
  }

  /** The registry after a handler has exited at `now`. */
  function AfterClose(m: Times, peer: IP, now: Millis): (m': Times)
    ensures peer in m' && m'[peer] == now
    ensures forall k :: k != peer ==> (k in m' <==> k in m)
    ensures forall k :: k in m && k != peer ==> m'[k] == m[k]
  {
    m[peer := now]
  }

  /** Everything reported on accept: the downtime, if any, then "established". */
  function AcceptReports(m: Times, peer: IP, now: Millis): (rs: seq<ServerReport>)
    ensures |rs| == 1 || |rs| == 2
    ensures rs[|rs| - 1] == Established(peer)
    ensures |rs| == 2 <==> AcceptDowntime(m, peer, now).Some?
    ensures |rs| == 2 ==> rs[0] == Restored(peer, AcceptDowntime(m, peer, now).value)
  {
    match AcceptDowntime(m, peer, now)
    case Some(d) => [Restored(peer, d), Established(peer)]
    case None => [Established(peer)]
  }

  /**
   * A disconnect recorded for one port of an IP is seen by an accept from
   * another port of the same IP, and the accept clears it for both.
   */
  lemma CloseSeenFromOtherPort(m: Times, a: TcpAddr, b: TcpAddr, t: Millis, now: Millis)
    requires a.ip == b.ip && a.port != b.port && !IsZero(t)
    ensures AcceptDowntime(AfterClose(m, PeerIdentity(a), t), PeerIdentity(b), now) == Some(now - t)
    ensures PeerIdentity(a) !in AfterAccept(AfterClose(m, PeerIdentity(a), t), PeerIdentity(b))
  {
  }

  function EventPeer(e: ServerEvent): IP {
    PeerIdentity(e.addr)
  }

  /** One registry step. */
  function Apply(m: Times, e: ServerEvent): Times {
    match e
    case Accepted(a, _) => AfterAccept(m, PeerIdentity(a))
    case Closed(a, t) => AfterClose(m, PeerIdentity(a), t)
  }

  /** The registry after a sequence of events, applied in order. */
  function Replay(m: Times, evs: seq<ServerEvent>): Times
    decreases |evs|
  {
    if evs == [] then m else Apply(Replay(m, evs[..|evs| - 1]), evs[|evs| - 1])
  }

  /** The last event of `evs` that concerns `peer`, if any. */
  function LastEventFor(evs: seq<ServerEvent>, peer: IP): (r: Option<ServerEvent>)
    ensures r.Some? ==> r.value in evs && EventPeer(r.value) == peer
    decreases |evs|
  {
    if evs == [] then None
    else if EventPeer(evs[|evs| - 1]) == peer then Some(evs[|evs| - 1])
    else LastEventFor(evs[..|evs| - 1], peer)
  }

  /**
   * The last event of `peer` closed a connection. This is what the registry
   * tracks; it means that no connection of `peer` is open only when the
   * peer's connections never overlap (see `OverlapLeavesStaleEntry`).
   */
  predicate DisconnectedAfter(evs: seq<ServerEvent>, peer: IP) {
    var last := LastEventFor(evs, peer);
    last.Some? && last.value.Closed?
  }

  /**
   * The registry's entry for a peer is decided by that peer's last event
   * alone: removed by an accept, set to the exit time by a close, and left as
   * it was when the peer has no event at all.
   */
  lemma {:induction false} ReplayFollowsLastEvent(m: Times, evs: seq<ServerEvent>, peer: IP)
    ensures LastEventFor(evs, peer).None? ==>
              (peer in Replay(m, evs) <==> peer in m) &&
              (peer in m ==> Replay(m, evs)[peer] == m[peer])
    ensures LastEventFor(evs, peer).Some? && LastEventFor(evs, peer).value.Accepted? ==>
              peer !in Replay(m, evs)
    ensures LastEventFor(evs, peer).Some? && LastEventFor(evs, peer).value.Closed? ==>
              peer in Replay(m, evs) && Replay(m, evs)[peer] == LastEventFor(evs, peer).value.at
    decreases |evs|
  {
    if evs != [] {
      var init := evs[..|evs| - 1];
      ReplayFollowsLastEvent(m, init, peer);
    }
  }

  /**
   * Starting from the empty registry, a peer has an entry exactly when its
   * last event is a close, and the entry is the time of that close.
   */
  lemma {:induction false} EntryIffDisconnected(evs: seq<ServerEvent>, peer: IP)
    ensures peer in Replay(map[], evs) <==> DisconnectedAfter(evs, peer)
    ensures peer in Replay(map[], evs) ==> Replay(map[], evs)[peer] == LastEventFor(evs, peer).value.at
  {
    ReplayFollowsLastEvent(map[], evs, peer);
  }

  /**
   * A reconnect sees the previous disconnect of the same IP, even from another
   * port: when the last event of the peer closed a connection at a non-zero
   * time `t`, accepting it again at `now` reports downtime `now - t`.
   */
  lemma {:induction false} ReconnectReportsDowntime(m: Times, evs: seq<ServerEvent>, a: TcpAddr, now: Millis)
    requires DisconnectedAfter(evs, PeerIdentity(a))
    requires !IsZero(LastEventFor(evs, PeerIdentity(a)).value.at)
    ensures AcceptReports(Replay(m, evs), PeerIdentity(a), now) ==
            [Restored(a.ip, now - LastEventFor(evs, PeerIdentity(a)).value.at), Established(a.ip)]
  {
    ReplayFollowsLastEvent(m, evs, PeerIdentity(a));
  }

  /**
   * No downtime is reported twice: once a peer's last event is an accept,
   * accepting it again reports no downtime.
   */
  lemma {:induction false} NoDowntimeAfterAccept(m: Times, evs: seq<ServerEvent>, peer: IP, now: Millis)
    requires LastEventFor(evs, peer).Some? && LastEventFor(evs, peer).value.Accepted?
    ensures AcceptDowntime(Replay(m, evs), peer, now) == None
    ensures AcceptReports(Replay(m, evs), peer, now) == [Established(peer)]
  {
    ReplayFollowsLastEvent(m, evs, peer);
  }

  /**
   * Entries are per IP, not per connection, so overlapping connections from
   * one IP leave a stale entry: when a second connection is accepted before
   * the first handler exits, the first handler's exit records a disconnect
   * although the second connection is still open, and the next accept
   * reports a downtime since that exit.
   */
  lemma {:induction false} OverlapLeavesStaleEntry(m: Times, a1: TcpAddr, a2: TcpAddr, t0: Millis, t1: Millis, t: Millis, a3: TcpAddr, now: Millis)
    requires a1.ip == a2.ip == a3.ip && !IsZero(t)
    ensures var evs := [Accepted(a1, t0), Accepted(a2, t1), Closed(a1, t)];
            a1.ip in Replay(m, evs) &&
            AcceptReports(Replay(m, evs), a3.ip, now) == [Restored(a3.ip, now - t), Established(a3.ip)]
  {
    var evs := [Accepted(a1, t0), Accepted(a2, t1), Closed(a1, t)];
    ReplayFollowsLastEvent(m, evs, a1.ip);
    assert LastEventFor(evs, a1.ip) == Some(Closed(a1, t));
  }

  /**
   * The heartbeat loop of a handler: write, and stop at the first failed
   * write. `writes[i]` is the outcome of the i-th write. Returns the number of
   * heartbeats written and whether a write failed (which ends the handler).
   */
  method SendHeartbeats(writes: seq<bool>) returns (sent: nat, failed: bool)
    ensures failed <==> false in writes
    ensures failed ==> sent < |writes| && !writes[sent]
    ensures !failed ==> sent == |writes|
    ensures forall j :: 0 <= j < sent ==> writes[j]
  {
    sent, failed := 0, false;
    while sent < |writes|
      invariant sent <= |writes|
      invariant forall j :: 0 <= j < sent ==> writes[j]
    {
      if !writes[sent] {
        failed := true;
        break;
      }
      sent := sent + 1;
    }
  }

  /** The process-wide disconnect registry, `LastDisconnectTime`. */
  class DisconnectRegistry {
    var lastDisconnect: Times

    constructor ()
      ensures lastDisconnect == map[]
    {
      lastDisconnect := map[];
    }

    /** Lookup and delete on accepting a connection from `addr` at `now`. */
    method OnAccept(addr: TcpAddr, now: Millis) returns (downtime: Option<int>)
      modifies this
      ensures downtime == AcceptDowntime(old(lastDisconnect), PeerIdentity(addr), now)
      ensures lastDisconnect == AfterAccept(old(lastDisconnect), PeerIdentity(addr))
    {
      var peer := PeerIdentity(addr);
      if peer in lastDisconnect && !IsZero(lastDisconnect[peer]) {
        downtime := Some(Since(now, lastDisconnect[peer]));
      } else {
        downtime := None;
      }
      lastDisconnect := lastDisconnect - {peer};
    }

    /** Record the exit time of a handler for `addr`. */
    method OnClose(addr: TcpAddr, now: Millis)
      modifies this
      ensures lastDisconnect == AfterClose(old(lastDisconnect), PeerIdentity(addr), now)
    {
      lastDisconnect := lastDisconnect[PeerIdentity(addr) := now];
    }

    /**
     * One connection handler: accept at `acceptedAt`, write heartbeats with
     * the outcomes `writes`, and, once a write fails, record `closedAt` and
     * report the loss. When no write in `writes` fails the handler is still
     * running and has not reached its exit.
     */
    method HandleClient(addr: TcpAddr, acceptedAt: Millis, writes: seq<bool>, closedAt: Millis)
      returns (reports: seq<ServerReport>, sent: nat, exited: bool)
      modifies this
      ensures exited <==> false in writes
      ensures sent <= |writes|
      ensures forall j :: 0 <= j < sent ==> writes[j]
      ensures exited ==> sent < |writes| && !writes[sent]
      ensures exited ==>
                lastDisconnect == Replay(old(lastDisconnect), [Accepted(addr, acceptedAt), Closed(addr, closedAt)]) &&
                reports == AcceptReports(old(lastDisconnect), PeerIdentity(addr), acceptedAt) + [ConnectionLost(addr.ip)]
      ensures !exited ==>
                lastDisconnect == Replay(old(lastDisconnect), [Accepted(addr, acceptedAt)]) &&
                reports == AcceptReports(old(lastDisconnect), PeerIdentity(addr), acceptedAt)
    {
      var peer := PeerIdentity(addr);
      var downtime := OnAccept(addr, acceptedAt);
      reports := ToSeq(match downtime case Some(d) => Some(Restored(peer, d)) case None => None);
      reports := reports + [Established(peer)];
      sent, exited := SendHeartbeats(writes);
      if exited {
        OnClose(addr, closedAt);
        reports := reports + [ConnectionLost(peer)];
      }
      ghost var accepted := [Accepted(addr, acceptedAt)];
      assert Replay(old(lastDisconnect), accepted) == AfterAccept(old(lastDisconnect), peer) by {
        assert accepted[..0] == [];
      }
      assert (accepted + [Closed(addr, closedAt)])[..1] == accepted;
    }
  }
}
