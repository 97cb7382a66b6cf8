/**
 * Client side of the checker: the reconnecting receiver.
 *
 * The outer loop dials the server; its state is whether the client believes
 * it is connected and when it last noticed a disconnect. A failed dial while
 * connected reports the loss; a successful dial while not connected reports
 * the first connection or the restored connection with its downtime. Each
 * successful dial starts a session whose inner loop reads heartbeats with a
 * fixed deadline and gives up only when a read fails more than one keep-alive
 * interval after the last byte was received.
 *
 * Leaving a session does not clear `connected`: a redial that succeeds at
 * once reports nothing, and a later failed dial reports a second loss.
 */
module ClientLoop {
  import opened Wrappers
  import opened Timing

  /** What the client reports. */
  datatype ClientReport =
    | FirstConnection
    | Restored(downtime: int)
    | LostOnDial     // a dial failed while the client believed it was connected
    | LostOnRead     // the inner read loop gave up on a session

  /** The outer loop's variables `connected` and `lastDisconnect`. */
  datatype State = State(connected: bool, lastDisconnect: Millis)

  const Initial: State := State(false, 0)

  /** The outcome of one dial: the next state and the report, if any. */
  datatype Step = Step(next: State, report: Option<ClientReport>)

  predicate IsConnectReport(r: ClientReport) {
    r.FirstConnection? || r.Restored?
  }

  /**
   * A failed dial at `now`. While connected it reports the loss once and
   * records `now` as the disconnect time; otherwise nothing changes.
   */
  function DialFailure(s: State, now: Millis): (st: Step)
    ensures !st.next.connected
    ensures st.report.Some? <==> s.connected
    ensures st.report.Some? ==> st.report.value == LostOnDial
    ensures st.next.lastDisconnect == if s.connected then now else s.lastDisconnect
    ensures !s.connected ==> st.next == s
  {
    if s.connected then Step(State(false, now), Some(LostOnDial)) else Step(s, None)
  }

  /**
   * A successful dial at `now`. The client is connected afterwards; a report
   * is made exactly when it was not connected before: "restored" with the
   * time since the recorded disconnect if that time is non-zero, and "first
   * connection" otherwise. The disconnect time is kept.
   */
  function DialSuccess(s: State, now: Millis): (st: Step)
    ensures st.next.connected
    ensures st.next.lastDisconnect == s.lastDisconnect
    ensures st.report.Some? <==> !s.connected
    ensures st.report.Some? ==> IsConnectReport(st.report.value)
    ensures st.report == Some(FirstConnection) <==> !s.connected && IsZero(s.lastDisconnect)
    ensures st.report.Some? && st.report.value.Restored? ==>
              s.lastDisconnect + st.report.value.downtime == now
  {
    if s.connected then Step(s, None)
    else if !IsZero(s.lastDisconnect) then Step(State(true, s.lastDisconnect), Some(Restored(Since(now, s.lastDisconnect))))
    else Step(State(true, s.lastDisconnect), Some(FirstConnection))
  }

  /** Every dial changes `connected` exactly when it makes a report. */
  lemma ReportIffTransition(s: State, now: Millis)
    ensures DialFailure(s, now).report.Some? <==> DialFailure(s, now).next.connected != s.connected
    ensures DialSuccess(s, now).report.Some? <==> DialSuccess(s, now).next.connected != s.connected
  {
  }

  // ---------------------------------------------------------------------
  // The inner read loop

  /**
   * One read of the inner loop: the deadline is set when the clock reads
   * `issuedAt`; the read returns at `returnedAt`, with a byte (`ok`) or with
   * an error (a timeout or a broken connection).
   */
  datatype ReadAttempt = ReadAttempt(issuedAt: Millis, ok: bool, returnedAt: Millis)

  /** `lastReceived` after a read: the return time of a successful read. */
  function Received(last: Millis, a: ReadAttempt): (r: Millis)
    ensures a.ok ==> r == a.returnedAt
    ensures !a.ok ==> r == last
  {
    if a.ok then a.returnedAt else last
  }

  /** A failed read ends the session only past the grace window. */
  predicate IsLoss(last: Millis, a: ReadAttempt): (lost: bool)
    ensures a.ok ==> !lost
    ensures lost <==> !a.ok && a.returnedAt > last + KeepaliveInterval
  {
    !a.ok && Since(a.returnedAt, last) > KeepaliveInterval
  }

  /** `lastReceived` after the reads `rs` of a session started at `start`. */
  function LastReceived(start: Millis, rs: seq<ReadAttempt>): Millis
    decreases |rs|
  {
    if rs == [] then start
    else Received(LastReceived(start, rs[..|rs| - 1]), rs[|rs| - 1])
  }

  /** The read at index `k` is judged a loss. */
  predicate LossAt(start: Millis, rs: seq<ReadAttempt>, k: nat)
    requires k < |rs|
  {
    IsLoss(LastReceived(start, rs[..k]), rs[k])
  }

  /** Some read of the session is judged a loss. */
  predicate SessionLost(start: Millis, rs: seq<ReadAttempt>) {
    exists k: nat | k < |rs| :: LossAt(start, rs, k)
  }

  /**
   * The inner loop of a session started at `start`, over the reads `rs`.
   * It sets the deadline of each read it makes, and stops right after the
   * first read judged a loss. `used` is the number of reads made.
   */
  method ReadLoop(start: Millis, rs: seq<ReadAttempt>)
    returns (lost: bool, used: nat, deadlines: seq<Millis>)
    ensures used <= |rs| && |deadlines| == used
    ensures forall i :: 0 <= i < used ==> deadlines[i] == ReadDeadline(rs[i].issuedAt)
    ensures lost <==> SessionLost(start, rs)
    ensures lost ==> 0 < used && LossAt(start, rs, used - 1)
    ensures !lost ==> used == |rs|
    ensures forall k: nat :: k < used && (!lost || k < used - 1) ==> !LossAt(start, rs, k)
  {
    var lastReceived := start;
    lost, used, deadlines := false, 0, [];
    while used < |rs|
      invariant used <= |rs| && |deadlines| == used
      invariant forall i :: 0 <= i < used ==> deadlines[i] == ReadDeadline(rs[i].issuedAt)
      invariant forall k: nat :: k < used ==> !LossAt(start, rs, k)
      invariant lastReceived == LastReceived(start, rs[..used])
    {
      var a := rs[used];
      deadlines := deadlines + [ReadDeadline(a.issuedAt)];
      if !a.ok {
        if Since(a.returnedAt, lastReceived) > KeepaliveInterval {
          assert LossAt(start, rs, used);
          lost, used := true, used + 1;
          break;
        }
      } else {
        lastReceived := a.returnedAt;
      }
      assert rs[..used + 1][..used] == rs[..used];
      used := used + 1;
    }
  }

  /** A failed read within one keep-alive interval of the last byte is tolerated and changes nothing. */
  lemma ShortDelayTolerated(last: Millis, a: ReadAttempt)
    requires !a.ok && a.returnedAt <= last + KeepaliveInterval
    ensures !IsLoss(last, a) && Received(last, a) == last
  {
  }

  /** The clock never runs backwards over a session started at `start`. */
  predicate MonotoneClock(start: Millis, rs: seq<ReadAttempt>) {
    && (forall i :: 0 <= i < |rs| ==> start <= rs[i].issuedAt <= rs[i].returnedAt)
    && (forall i, j :: 0 <= i < j < |rs| ==> rs[i].returnedAt <= rs[j].issuedAt)
  }

  /** With a monotone clock, `lastReceived` never lies after the return time of any read made so far. */
  lemma {:induction false} LastReceivedNotLater(start: Millis, rs: seq<ReadAttempt>, k: nat)
    requires MonotoneClock(start, rs)
    requires k < |rs|
    ensures LastReceived(start, rs[..k]) <= rs[k].issuedAt
    decreases k
  {
    if k > 0 {
      LastReceivedNotLater(start, rs, k - 1);
      assert rs[..k][..k - 1] == rs[..k - 1];
    }
  }

  /**
   * With a monotone clock, a read that fails at or after its deadline is
   * always judged a loss: the 150 ms deadline exceeds the 100 ms grace
   * window, so the window spares only reads that fail early.
   */
  lemma TimeoutIsLoss(start: Millis, rs: seq<ReadAttempt>, k: nat)
    requires MonotoneClock(start, rs)
    requires k < |rs| && !rs[k].ok
    requires rs[k].returnedAt >= ReadDeadline(rs[k].issuedAt)
    ensures LossAt(start, rs, k)
    ensures SessionLost(start, rs)
  {
    LastReceivedNotLater(start, rs, k);
  }

  /**
   * `lastReceived` is the return time of the last successful read, or the
   * session start when no read has succeeded.
   */
  lemma {:induction false} LastReceivedIsLastSuccess(start: Millis, rs: seq<ReadAttempt>)
    ensures (forall i :: 0 <= i < |rs| ==> !rs[i].ok) ==> LastReceived(start, rs) == start
    ensures forall j :: 0 <= j < |rs| && rs[j].ok && (forall i :: j < i < |rs| ==> !rs[i].ok) ==>
              LastReceived(start, rs) == rs[j].returnedAt
    decreases |rs|
  {
    if rs != [] {
      var init := rs[..|rs| - 1];
      LastReceivedIsLastSuccess(start, init);
      assert forall i :: 0 <= i < |init| ==> init[i] == rs[i];
    }
  }

  // ---------------------------------------------------------------------
  // The outer loop

  /** One turn of the outer loop: a failed dial, or a session over the given reads. */
  datatype Attempt =
    | DialFailed(at: Millis)
    | Dialed(at: Millis, session: seq<ReadAttempt>)

  /**
   * The state and reports after a run; `inSession` holds when the run ended
   * inside a session that had not been lost.
   */
  datatype Trace = Trace(final: State, reports: seq<ClientReport>, inSession: bool)

  /** The run of the outer loop from `s` over `attempts`. */
  function RunFrom(s: State, attempts: seq<Attempt>): (t: Trace)
    ensures |t.reports| <= 2 * |attempts|
    ensures t.inSession ==> t.final.connected
    ensures attempts == [] ==> t == Trace(s, [], false)
    decreases |attempts|
  {
    if attempts == [] then Trace(s, [], false)
    else match attempts[0]
      case DialFailed(at) =>
        var st := DialFailure(s, at);
        var rest := RunFrom(st.next, attempts[1..]);
        Trace(rest.final, ToSeq(st.report) + rest.reports, rest.inSession)
      case Dialed(at, rs) =>
        var st := DialSuccess(s, at);
        if SessionLost(at, rs) then
          var rest := RunFrom(st.next, attempts[1..]);
          Trace(rest.final, ToSeq(st.report) + [LostOnRead] + rest.reports, rest.inSession)
        else
          Trace(st.next, ToSeq(st.report), true)
  }

  /** The trace `t`, preceded by the reports `rs`. */
  function Then(rs: seq<ClientReport>, t: Trace): Trace {
    Trace(t.final, rs + t.reports, t.inSession)
  }

  lemma ThenThen(a: seq<ClientReport>, b: seq<ClientReport>, t: Trace)
    ensures Then(a, Then(b, t)) == Then(a + b, t)
  {
    assert a + (b + t.reports) == (a + b) + t.reports;
  }

  /** One unfolding of `RunFrom` at a failed dial. */
  lemma RunFromFailedDial(s: State, attempts: seq<Attempt>, at: Millis)
    requires attempts != [] && attempts[0] == DialFailed(at)
    ensures RunFrom(s, attempts) ==
            Then(ToSeq(DialFailure(s, at).report), RunFrom(DialFailure(s, at).next, attempts[1..]))
  {
  }

  /** One unfolding of `RunFrom` at a successful dial. */
  lemma RunFromSession(s: State, attempts: seq<Attempt>, at: Millis, rs: seq<ReadAttempt>)
    requires attempts != [] && attempts[0] == Dialed(at, rs)
    ensures SessionLost(at, rs) ==>
              RunFrom(s, attempts) ==
              Then(ToSeq(DialSuccess(s, at).report) + [LostOnRead], RunFrom(DialSuccess(s, at).next, attempts[1..]))
    ensures !SessionLost(at, rs) ==>
              RunFrom(s, attempts) == Trace(DialSuccess(s, at).next, ToSeq(DialSuccess(s, at).report), true)
  {
  }

  function ConnectReports(rs: seq<ClientReport>): nat
    decreases |rs|
  {
    if rs == [] then 0 else (if IsConnectReport(rs[0]) then 1 else 0) + ConnectReports(rs[1..])
  }

  function DialLossReports(rs: seq<ClientReport>): nat
    decreases |rs|
  {
    if rs == [] then 0 else (if rs[0] == LostOnDial then 1 else 0) + DialLossReports(rs[1..])
  }

  lemma {:induction false} CountsAppend(a: seq<ClientReport>, b: seq<ClientReport>)
    ensures ConnectReports(a + b) == ConnectReports(a) + ConnectReports(b)
    ensures DialLossReports(a + b) == DialLossReports(a) + DialLossReports(b)
    decreases |a|
  {
    if a != [] {
      assert (a + b)[0] == a[0];
      assert (a + b)[1..] == a[1..] + b;
      CountsAppend(a[1..], b);
    } else {
      assert a + b == b;
    }
  }

  /**
   * Over any run, the number of connect reports and the number of dial-loss
   * reports differ by how `connected` changed. Losses reported by the read
   * loop take no part in this balance.
   */
  lemma {:induction false} ConnectsBalanceDialLosses(s: State, attempts: seq<Attempt>)
    ensures var t := RunFrom(s, attempts);
            ConnectReports(t.reports) + (if s.connected then 1 else 0) ==
            DialLossReports(t.reports) + (if t.final.connected then 1 else 0)
    decreases |attempts|
  {
    if attempts != [] {
      match attempts[0]
      case DialFailed(at) =>
        var st := DialFailure(s, at);
        ConnectsBalanceDialLosses(st.next, attempts[1..]);
        CountsAppend(ToSeq(st.report), RunFrom(st.next, attempts[1..]).reports);
      case Dialed(at, rs) =>
        var st := DialSuccess(s, at);
        if SessionLost(at, rs) {
          var rest := RunFrom(st.next, attempts[1..]);
          ConnectsBalanceDialLosses(st.next, attempts[1..]);
          CountsAppend(ToSeq(st.report) + [LostOnRead], rest.reports);
          CountsAppend(ToSeq(st.report), [LostOnRead]);
        } else {
          CountsAppend(ToSeq(st.report), []);
        }
    }
  }

  /**
   * Ignoring read-loop losses, `rs` alternates between connect reports and
   * dial-loss reports, beginning with a dial loss when `connected` holds and
   * with a connect report otherwise.
   */
  predicate Alternating(rs: seq<ClientReport>, connected: bool)
    decreases |rs|
  {
    if rs == [] then true
    else if IsConnectReport(rs[0]) then !connected && Alternating(rs[1..], true)
    else if rs[0] == LostOnDial then connected && Alternating(rs[1..], false)
    else Alternating(rs[1..], connected)
  }

  /**
   * Connect reports and dial-loss reports alternate over any run: two connect
   * reports always have a dial loss between them, and two dial losses a
   * connect report.
   */
  lemma {:induction false} ReportsAlternate(s: State, attempts: seq<Attempt>)
    ensures Alternating(RunFrom(s, attempts).reports, s.connected)
    decreases |attempts|
  {
    if attempts != [] {
      match attempts[0]
      case DialFailed(at) =>
        var st := DialFailure(s, at);
        var rest := RunFrom(st.next, attempts[1..]).reports;
        ReportsAlternate(st.next, attempts[1..]);
        if st.report.Some? {
          assert ([LostOnDial] + rest)[1..] == rest;
        } else {
          assert [] + rest == rest;
        }
      case Dialed(at, rs) =>
        var st := DialSuccess(s, at);
        if SessionLost(at, rs) {
          var rest := RunFrom(st.next, attempts[1..]).reports;
          ReportsAlternate(st.next, attempts[1..]);
          assert ([LostOnRead] + rest)[1..] == rest;
          if st.report.Some? {
            assert ([st.report.value] + [LostOnRead] + rest)[1..] == [LostOnRead] + rest;
          } else {
            assert [] + [LostOnRead] + rest == [LostOnRead] + rest;
          }
        } else if st.report.Some? {
          assert [st.report.value][1..] == [];
        }
    }
  }

  /** Every dial time is non-zero, as wall-clock readings are. */
  predicate ClockNonZero(attempts: seq<Attempt>) {
    forall i :: 0 <= i < |attempts| ==> !IsZero(attempts[i].at)
  }

  /**
   * Once the client has been connected, "first connection" is never reported
   * again: the client stays connected or has recorded a non-zero disconnect.
   */
  lemma {:induction false} NoFirstConnectionOnceConnected(s: State, attempts: seq<Attempt>)
    requires s.connected || !IsZero(s.lastDisconnect)
    requires ClockNonZero(attempts)
    ensures FirstConnection !in RunFrom(s, attempts).reports
    decreases |attempts|
  {
    if attempts != [] {
      assert ClockNonZero(attempts[1..]) by {
        forall i | 0 <= i < |attempts[1..]| ensures !IsZero(attempts[1..][i].at) {
          assert attempts[1..][i] == attempts[i + 1];
        }
      }
      match attempts[0]
      case DialFailed(at) =>
        assert !IsZero(attempts[0].at);
        NoFirstConnectionOnceConnected(DialFailure(s, at).next, attempts[1..]);
      case Dialed(at, rs) =>
        if SessionLost(at, rs) {
          NoFirstConnectionOnceConnected(DialSuccess(s, at).next, attempts[1..]);
        }
    }
  }

  /** From the initial state, "first connection" is reported at most once, and only as the first report. */
  lemma FirstConnectionAtMostOnce(attempts: seq<Attempt>)
    requires ClockNonZero(attempts)
    ensures forall i :: 0 < i < |RunFrom(Initial, attempts).reports| ==>
              RunFrom(Initial, attempts).reports[i] != FirstConnection
  {
    if attempts != [] {
      var t := RunFrom(Initial, attempts);
      assert ClockNonZero(attempts[1..]) by {
        forall i | 0 <= i < |attempts[1..]| ensures !IsZero(attempts[1..][i].at) {
          assert attempts[1..][i] == attempts[i + 1];
        }
      }
      match attempts[0]
      case DialFailed(at) =>
        FirstConnectionAtMostOnce(attempts[1..]);
      case Dialed(at, rs) =>
        if SessionLost(at, rs) {
          var rest := RunFrom(DialSuccess(Initial, at).next, attempts[1..]);
          NoFirstConnectionOnceConnected(DialSuccess(Initial, at).next, attempts[1..]);
          assert t.reports == [FirstConnection, LostOnRead] + rest.reports;
          forall i | 0 < i < |t.reports| ensures t.reports[i] != FirstConnection {
            if i >= 2 {
              assert t.reports[i] == rest.reports[i - 2];
            }
          }
        }
    }
  }

  /** The attempts are all failed dials. */
  predicate AllFailed(attempts: seq<Attempt>) {
    forall i :: 0 <= i < |attempts| ==> attempts[i].DialFailed?
  }

  /** Failed dials while disconnected change nothing and report nothing. */
  lemma {:induction false} FailuresWhileDisconnected(s: State, fails: seq<Attempt>, rest: seq<Attempt>)
    requires !s.connected && AllFailed(fails)
    ensures RunFrom(s, fails + rest) == RunFrom(s, rest)
    decreases |fails|
  {
    if fails != [] {
      assert (fails + rest)[0] == fails[0] && fails[0].DialFailed?;
      assert (fails + rest)[1..] == fails[1..] + rest;
      assert AllFailed(fails[1..]) by {
        forall i | 0 <= i < |fails[1..]| ensures fails[1..][i].DialFailed? {
          assert fails[1..][i] == fails[i + 1];
        }
      }
      assert DialFailure(s, fails[0].at) == Step(s, None);
      FailuresWhileDisconnected(s, fails[1..], rest);
    } else {
      assert fails + rest == rest;
    }
  }

  /**
   * Downtime is measured from the first failed dial of an outage: when a
   * connected client fails to dial at `t1 > 0`, fails any number of times
   * more, and then dials successfully at `t2`, it reports the loss, then
   * "restored" with downtime `t2 - t1`.
   */
  lemma RestoredMeasuresFromFirstFailure(s: State, t1: Millis, fails: seq<Attempt>, t2: Millis, rs: seq<ReadAttempt>)
    requires s.connected && !IsZero(t1) && AllFailed(fails)
    ensures var r := RunFrom(s, [DialFailed(t1)] + fails + [Dialed(t2, rs)]).reports;
            |r| >= 2 && r[0] == LostOnDial && r[1] == Restored(t2 - t1)
  {
    var attempts := [DialFailed(t1)] + fails + [Dialed(t2, rs)];
    var down := State(false, t1);
    assert attempts[0] == DialFailed(t1);
    assert attempts[1..] == fails + [Dialed(t2, rs)];
    assert DialFailure(s, t1) == Step(down, Some(LostOnDial));
    FailuresWhileDisconnected(down, fails, [Dialed(t2, rs)]);
    var restored := RunFrom(down, [Dialed(t2, rs)]);
    assert restored.reports[0] == Restored(t2 - t1) by {
      assert [Dialed(t2, rs)][0] == Dialed(t2, rs);
      assert DialSuccess(down, t2).report == Some(Restored(t2 - t1));
    }
    assert RunFrom(s, attempts).reports == [LostOnDial] + restored.reports;
  }

  /**
   * The kept quirk, first half: after a session is lost, a redial that
   * succeeds at once reports no "restored", because `connected` was never
   * cleared.
   */
  lemma QuickRedialReportsNothing(s: State, at: Millis, rs: seq<ReadAttempt>, at2: Millis, rs2: seq<ReadAttempt>)
    requires SessionLost(at, rs)
    ensures RunFrom(s, [Dialed(at, rs), Dialed(at2, rs2)]).reports ==
            ToSeq(DialSuccess(s, at).report) + [LostOnRead] + (if SessionLost(at2, rs2) then [LostOnRead] else [])
  {
    var attempts := [Dialed(at, rs), Dialed(at2, rs2)];
    var up := DialSuccess(s, at).next;
    assert attempts[1..] == [Dialed(at2, rs2)];
    assert [Dialed(at2, rs2)][1..] == [];
    assert DialSuccess(up, at2).report == None;
    assert RunFrom(up, [Dialed(at2, rs2)]).reports == if SessionLost(at2, rs2) then [LostOnRead] else [];
  }

  /**
   * The kept quirk, second half: after a session is lost, a failed redial
   * reports the loss a second time and only then records the disconnect.
   */
  lemma LostSessionThenFailedDial(s: State, at: Millis, rs: seq<ReadAttempt>, t: Millis)
    requires SessionLost(at, rs)
    ensures RunFrom(s, [Dialed(at, rs), DialFailed(t)]).reports ==
            ToSeq(DialSuccess(s, at).report) + [LostOnRead, LostOnDial]
    ensures RunFrom(s, [Dialed(at, rs), DialFailed(t)]).final == State(false, t)
  {
    var attempts := [Dialed(at, rs), DialFailed(t)];
    var up := DialSuccess(s, at).next;
    assert attempts[1..] == [DialFailed(t)];
    assert [DialFailed(t)][1..] == [];
    assert DialFailure(up, t) == Step(State(false, t), Some(LostOnDial));
    assert RunFrom(up, [DialFailed(t)]) == Trace(State(false, t), [LostOnDial], false);
  }

  /** The receiver's outer-loop state. */
  class Client {
    var connected: bool
    var lastDisconnect: Millis

    function Current(): State
      reads this
    {
      State(connected, lastDisconnect)
    }

    constructor ()
      ensures Current() == Initial
    {
      connected, lastDisconnect := false, 0;
    }

    /** A dial at `now` has failed. */
    method OnDialFailure(now: Millis) returns (report: Option<ClientReport>)
      modifies this
      ensures Step(Current(), report) == DialFailure(old(Current()), now)
    {
      report := None;
      if connected {
        report := Some(LostOnDial);
        lastDisconnect := now;
        connected := false;
      }
    }

    /** A dial at `now` has succeeded. */
    method OnDialSuccess(now: Millis) returns (report: Option<ClientReport>)
      modifies this
      ensures Step(Current(), report) == DialSuccess(old(Current()), now)
    {
      report := None;
      if !connected {
        if !IsZero(lastDisconnect) {
          report := Some(Restored(Since(now, lastDisconnect)));
        } else {
          report := Some(FirstConnection);
        }
        connected := true;
      }
    }

    /**
     * The outer loop over `attempts`: dial, and on success run the session's
     * read loop. Stops when the attempts run out or a session is never lost.
     */
    method RunClient(attempts: seq<Attempt>) returns (reports: seq<ClientReport>, inSession: bool)
      modifies this
      ensures Trace(Current(), reports, inSession) == RunFrom(old(Current()), attempts)
    {
      reports, inSession := [], false;
      var i := 0;
      assert attempts[0..] == attempts && [] + RunFrom(Current(), attempts).reports == RunFrom(Current(), attempts).reports;
      while i < |attempts|
        invariant i <= |attempts|
        invariant RunFrom(old(Current()), attempts) == Then(reports, RunFrom(Current(), attempts[i..]))
      {
        ghost var before, done := Current(), reports;
        var added: seq<ClientReport>;
        assert attempts[i..][0] == attempts[i] && attempts[i..][1..] == attempts[i + 1..];
        match attempts[i] {
          case DialFailed(at) =>
            RunFromFailedDial(before, attempts[i..], at);
            var report := OnDialFailure(at);
            added := ToSeq(report);
          case Dialed(at, rs) =>
            RunFromSession(before, attempts[i..], at, rs);
            var report := OnDialSuccess(at);
            var lost, _, _ := ReadLoop(at, rs);
            if !lost {
              reports, inSession := reports + ToSeq(report), true;
              ThenThen(done, ToSeq(report), Trace(Current(), [], true));
              return;
            }
            added := ToSeq(report) + [LostOnRead];
        }
        reports := reports + added;
        ThenThen(done, added, RunFrom(Current(), attempts[i + 1..]));
        i := i + 1;
      }
    }
  }
}
