/**
 What a connection puts on the wire and when: the window it announces, what it sends next, how it answers a
 timeout, and what the application's calls take and return.
 */
module TcpSending {
  import opened Prelude
  import opened SequenceNumbers
  import opened TcpSegment
  import opened TcpModel
  import opened TcpFlights
  import opened TcpInvariants
  import opened TcpProperties
  import opened TcpReception
  import opened TcpTimers
  import opened TcpEstimator

  // ---------------------------------------------------------------- the announced window

  lemma EdgeIsRightEdge(r: Receiver, cfg: Config)
    ensures RightEdge(r, cfg) == Edge(r, cfg)
  {}

  /** Every segment acknowledges all that was received and offers exactly the window; a SYN, and nothing else,
      offers the segment size. */
  lemma Announced(c: Conn, now: Time, cfg: Config)
    requires Inv(c, cfg) && Emits(PlanTransmit(c, now, cfg))
    ensures ValidPlan(PlanTransmit(c, now, cfg))
    ensures
      var seg := Emission(PlanTransmit(c, now, cfg), cfg);
      && seg.ack == c.rcv.next && seg.ack + seg.window == Edge(c.rcv, cfg)
      && seg.mss == if HasSyn(seg.flags) then Some(cfg.mss) else None
  {
    hide PlanTransmit, SenderInv, FlowInv, ControlInv, HasSyn;
    PlanInv(c, now, cfg);
    AckAlone();
  }

  lemma AckAlone()
    ensures !HasSyn(ACK) && HasAck(ACK) && !HasFin(ACK) && HasAck(SYN + ACK) && HasAck(FIN + ACK) && HasAck(ACK + PSH)
    ensures HasSyn(SYN) && HasSyn(SYN + ACK) && !HasSyn(FIN + ACK) && !HasSyn(ACK + PSH) && !HasFin(ACK + PSH)
    ensures HasFin(FIN + ACK)
  {}

  /** What an operation puts on the wire. */
  function Emitted(c: Conn, op: Op, cfg: Config): seq<Seg> {
    if !op.OpTransmit? || op.outcome.Refused? || c.state.IsTerminal() then []
    else
      var p := PlanTransmit(c, op.at, cfg);
      if Emits(p) && ValidPlan(p) then [Emission(p, cfg)] else []
  }

  function Trace(c: Conn, ops: seq<Op>, cfg: Config): seq<Seg>
    decreases |ops|
  {
    if ops == [] then [] else Emitted(c, ops[0], cfg) + Trace(Apply(c, ops[0], cfg), ops[1..], cfg)
  }

  /** The segments acknowledge at least `ack` and offer at least up to `edge`, and each no less than the one
      before it. */
  predicate Rising(t: seq<Seg>, ack: int, edge: int) {
    t == [] || (ack <= t[0].ack && edge <= t[0].ack + t[0].window && Rising(t[1..], t[0].ack, t[0].ack + t[0].window))
  }

  lemma {:induction false} RisingPair(t: seq<Seg>, ack: int, edge: int, i: nat, j: nat)
    requires Rising(t, ack, edge) && i <= j < |t|
    ensures ack <= t[i].ack <= t[j].ack && edge <= t[i].ack + t[i].window <= t[j].ack + t[j].window
    decreases |t|
  {
    if j > 0 {
      RisingPair(t[1..], t[0].ack, t[0].ack + t[0].window, if i == 0 then 0 else i - 1, j - 1);
    }
  }

  lemma RisingOn(e: seq<Seg>, t: seq<Seg>, ack: int, edge: int, ack': int, edge': int)
    requires Rising(t, ack', edge') && ack <= ack' && edge <= edge'
    requires e == [] || (|e| == 1 && e[0].ack == ack && e[0].ack + e[0].window == edge)
    ensures Rising(e + t, ack, edge)
  {
    if e == [] { assert e + t == t; } else { assert (e + t)[1..] == t; }
  }

  /** Of any two segments of a run, the later one acknowledges and offers no less. */
  lemma AnnouncedRun(c: Conn, ops: seq<Op>, cfg: Config, i: nat, j: nat)
    requires Inv(c, cfg) && c.rcv.known && i <= j < |Trace(c, ops, cfg)|
    ensures
      var a, b := Trace(c, ops, cfg)[i], Trace(c, ops, cfg)[j];
      && c.rcv.next <= a.ack <= b.ack
      && Edge(c.rcv, cfg) <= a.ack + a.window <= b.ack + b.window
  {
    hide Inv, Trace, Edge, Rising;
    TraceRises(c, ops, cfg);
    RisingPair(Trace(c, ops, cfg), c.rcv.next, Edge(c.rcv, cfg), i, j);
  }

  lemma {:induction false} TraceRises(c: Conn, ops: seq<Op>, cfg: Config)
    requires Inv(c, cfg) && c.rcv.known
    ensures Rising(Trace(c, ops, cfg), c.rcv.next, Edge(c.rcv, cfg))
    decreases |ops|
  {
    hide Inv, Apply, Edge, Emitted, Rising;
    if ops == [] {
      RisingNone(c.rcv.next, Edge(c.rcv, cfg));
    } else {
      var d := Apply(c, ops[0], cfg);
      AnnouncedHere(c, ops[0], cfg);
      TraceRises(d, ops[1..], cfg);
      RisingOn(Emitted(c, ops[0], cfg), Trace(d, ops[1..], cfg), c.rcv.next, Edge(c.rcv, cfg), d.rcv.next,
               Edge(d.rcv, cfg));
    }
  }

  lemma RisingNone(ack: int, edge: int)
    ensures Rising([], ack, edge)
  {}

  lemma AnnouncedHere(c: Conn, op: Op, cfg: Config)
    requires Inv(c, cfg) && c.rcv.known
    ensures
      var d, e := Apply(c, op, cfg), Emitted(c, op, cfg);
      && Inv(d, cfg) && d.rcv.known && c.rcv.next <= d.rcv.next && Edge(c.rcv, cfg) <= Edge(d.rcv, cfg)
      && (e == [] || (|e| == 1 && e[0].ack == c.rcv.next && e[0].ack + e[0].window == Edge(c.rcv, cfg)))
  {
    hide Inv, Apply, PlanTransmit, Emission, Edge, RightEdge;
    ApplyInv(c, op, cfg);
    RightEdgeNeverShrinks(c, op, cfg);
    EdgeIsRightEdge(c.rcv, cfg);
    EdgeIsRightEdge(Apply(c, op, cfg).rcv, cfg);
    if op.OpTransmit? && Emits(PlanTransmit(c, op.at, cfg)) {
      Announced(c, op.at, cfg);
    }
  }

  /** An acknowledgment that is owed leaves with the next segment and stays owed until one has left. */
  lemma OwedAck(c: Conn, now: Time, cfg: Config)
    requires Inv(c, cfg) && Settled(c) && !c.state.IsTerminal() && c.ctl.ackPending
    ensures Emits(PlanTransmit(c, now, cfg)) && ValidPlan(PlanTransmit(c, now, cfg))
    ensures HasAck(Emission(PlanTransmit(c, now, cfg), cfg).flags)
    ensures !Transmit(c, now, cfg, Accepted).ctl.ackPending && Transmit(c, now, cfg, Refused).ctl.ackPending
  {
    hide PlanTransmit, SenderInv, ReceiverInv, FlowInv, HasAck, Answering, Timed;
    PlanInv(c, now, cfg);
    PlanControl(c, now, cfg);
    PlanSettled(c, now, cfg);
    var p := PlanTransmit(c, now, cfg);
    AckAlone();
    if p.index.Some? { FlightFlags(p.conn, p.index.value, cfg); }
  }

  /** Only the SYN of an active open carries no acknowledgment. */
  lemma FlightFlags(c: Conn, i: nat, cfg: Config)
    requires Inv(c, cfg) && Answering(c) && i < |c.snd.flights|
    ensures
      var flags := c.snd.flights[i].flags;
      && (HasSyn(flags) <==> c.state.IsSynchronizing()) && (HasAck(flags) <==> !c.state.SynSent?)
      && (c.state.IsOpen() ==> flags == ACK + PSH)
  {
    hide DataRun, AllSound, PayloadBytes, ReceiverInv, FlowInv;
    if c.state.IsOpen() { RunMember(c.snd.flights, c.snd.iss, c.snd.written, c.snd.una, c.snd.next, i); }
  }

  // ---------------------------------------------------------------- sending again

  /** The oldest flight is sent again when its timer has run out, whatever else waits. It carries the same bytes
      at the same position, its timeout doubles up to the limit, and no flight is timed any more. */
  lemma SendsAgain(c: Conn, now: Time, cfg: Config)
    requires Inv(c, cfg) && !c.state.IsTerminal() && c.snd.flights != []
    requires c.snd.flights[0].transmissions > 0 && c.snd.flights[0].Due(now)
    ensures
      var p := PlanTransmit(c, now, cfg);
      var f := c.snd.flights[0];
      && Emits(p) && ValidPlan(p)
      && var seg, d := Emission(p, cfg), Transmit(c, now, cfg, Accepted);
         && seg.pos == f.pos && seg.flags == f.flags && seg.payload == f.payload
         && d.snd.sent == c.snd.sent && d.snd.una == c.snd.una && d.snd.flights != []
         && var g := d.snd.flights[0];
            && g.pos == f.pos && g.payload == f.payload && g.lastSent == Some(now) && g.sends == f.sends + [now]
            && g.rto == Min(2 * f.rto, cfg.maxRto) && d.rtt.rto == g.rto
            && forall i :: 0 <= i < |d.snd.flights| ==> !d.snd.flights[i].rttEligible
  {
    hide SenderInv, ReceiverInv, ControlInv, FlowInv, Prepare, AfterSubmission, AdvertisedWindow, HasSyn, HasAck,
         LaterBy;
    AgainPlan(c, now, cfg);
    PrepareAppends(c, now, cfg);
    OldestEnds(c, cfg);
    var d := Prepare(c, now, cfg);
    assert PlanTransmit(c, now, cfg) == Plan(d, Some(0));
    hide PlanTransmit;
  }

  lemma AgainPlan(c: Conn, now: Time, cfg: Config)
    requires c.snd.flights != [] && c.snd.flights[0].transmissions > 0 && c.snd.flights[0].Due(now)
    ensures PlanTransmit(c, now, cfg) == Plan(Prepare(c, now, cfg), Some(0))
  {
    hide Prepare, LaterBy, HasSyn, HasFin, Room, CutFlight;
    PrepareAppends(c, now, cfg);
  }

  lemma OldestEnds(c: Conn, cfg: Config)
    requires Inv(c, cfg) && c.snd.flights != [] && c.snd.flights[0].transmissions > 0
    ensures c.snd.flights[0].End() <= c.snd.sent && c.snd.flights[0].pos == c.snd.una
    ensures c.snd.flights[0].rto <= cfg.maxRto
  {
    hide ReceiverInv, FlowInv, ControlInv, PayloadBytes;
    assert SoundFlight(c.snd.flights[0], cfg);
    if c.state.IsOpen() {
      RunMember(c.snd.flights, c.snd.iss, c.snd.written, c.snd.una, c.snd.next, 0);
      RunLength(c.snd.flights, c.snd.iss, c.snd.written, c.snd.una, c.snd.next);
      RunLength(c.snd.flights[1..], c.snd.iss, c.snd.written, c.snd.flights[0].End(), c.snd.next);
    }
    hide AllSound, DataRun;
  }

  /** A timeout shrinks the window to one segment; the first timeout of a flight also halves what was in flight to
      set the threshold, and later ones keep it (section 3.1 of RFC 5681). Repeating a probe or a SYN on request does
      neither. */
  lemma TimeoutShrinks(c: Conn, now: Time, cfg: Config)
    requires Inv(c, cfg) && !c.state.IsTerminal() && c.snd.flights != []
    requires c.snd.flights[0].transmissions > 0 && c.snd.flights[0].Due(now)
    ensures
      var f, g := c.snd.flights[0], Transmit(c, now, cfg, Accepted).cong;
      var mss := SegmentSize(c.peer, cfg);
      && g.synRetransmitted == (c.cong.synRetransmitted || HasSyn(f.flags))
      && g.lastDataSent == (if f.payload != [] then Some(now) else c.cong.lastDataSent)
      && if f.lastSent.Some? && !f.persist then
           && g.cwnd == Min(mss, cfg.maxCwnd) && g.credit == 0
           && g.ssthresh == if f.transmissions == 1 then Max((c.snd.sent - c.snd.una) / 2, 2 * mss) else c.cong.ssthresh
         else g.cwnd == c.cong.cwnd && g.ssthresh == c.cong.ssthresh && g.credit == c.cong.credit
  {
    hide SenderInv, ReceiverInv, ControlInv, FlowInv, Prepare, MarkSubmitted, Emission, HasSyn, HasAck, LaterBy;
    AgainPlan(c, now, cfg);
    PrepareAppends(c, now, cfg);
    PlanInv(c, now, cfg);
    hide PlanTransmit;
  }

  // ---------------------------------------------------------------- sending for the first time

  /** What both windows leave beyond what is in flight. */
  function Usable(cwnd: nat, window: nat, used: int): int { Max(0, Min(cwnd, window) - used) }

  /** Nothing is in flight and no data has left for a whole timeout. */
  predicate Idle(c: Conn, now: Time) {
    c.snd.flights == [] && c.cong.lastDataSent.Some? && LaterBy(c.cong.lastDataSent.value, c.rtt.rto) <= now
  }

  /** The congestion window for new data: after idling no more than the initial one. */
  function Restarted(c: Conn, now: Time, cfg: Config): nat {
    if Idle(c, now) then Min(c.cong.cwnd, InitialCwnd(c.cong, c.peer, cfg)) else c.cong.cwnd
  }

  /** How much of the queue may leave: one segment at most, within both windows; a single byte against a closed window
      with nothing in flight. */
  function Sendable(c: Conn, now: Time, cfg: Config): int {
    var room := if c.peer.window == 0 && c.snd.flights == [] then 1
      else Usable(Restarted(c, now, cfg), c.peer.window, c.snd.sent - c.snd.una);
    Min(|c.snd.queued|, Min(SegmentSize(c.peer, cfg), room))
  }

  /** A connection that may send new data. */
  predicate Ready(c: Conn, now: Time, cfg: Config) {
    && c.state.IsOpen() && c.snd.queued != [] && |c.snd.flights| < cfg.maxInflight && !Unsent(c.snd)
    && (c.snd.flights != [] ==> !c.snd.flights[0].Due(now))
  }

  lemma AllSubmitted(c: Conn, cfg: Config)
    requires Inv(c, cfg) && c.state.IsOpen() && !Unsent(c.snd)
    ensures c.snd.sent == c.snd.next && (c.snd.flights == [] <==> c.snd.una == c.snd.next) && c.snd.una <= c.snd.next
  {
    hide ReceiverInv, FlowInv, ControlInv, AllSound, PayloadBytes;
    RunLength(c.snd.flights, c.snd.iss, c.snd.written, c.snd.una, c.snd.next);
    hide DataRun;
  }

  lemma PrepareSends(c: Conn, now: Time, cfg: Config)
    requires Inv(c, cfg) && Ready(c, now, cfg)
    ensures
      var d, n := Prepare(c, now, cfg), Sendable(c, now, cfg);
      && 0 <= n <= |c.snd.queued|
      && d == c.(cong := d.cong, snd := d.snd)
      && d.cong == c.cong.(cwnd := Restarted(c, now, cfg), credit := if Idle(c, now) then 0 else c.cong.credit)
      && (n == 0 ==> d.snd == c.snd)
      && (n > 0 ==>
            var f := Flight(c.snd.sent, ACK + PSH, c.snd.queued[..n], now, None, 0, c.rtt.rto,
                            c.peer.window == 0 && c.snd.flights == [], true, []);
            d.snd == c.snd.(queued := c.snd.queued[n..], flights := c.snd.flights + [f], next := c.snd.sent + n))
  {
    hide SenderInv, ReceiverInv, ControlInv, LaterBy, InitialCwnd;
    AllSubmitted(c, cfg);
    AckAlone();
  }

  /** The plan admits the new flight whole. */
  lemma AdmitsNew(c: Conn, now: Time, cfg: Config)
    requires Inv(c, cfg) && Ready(c, now, cfg)
    ensures
      var d, n, p := Prepare(c, now, cfg), Sendable(c, now, cfg), PlanTransmit(c, now, cfg);
      && p.conn == d && ValidPlan(p)
      && p.index == if n == 0 then None else Some(|c.snd.flights|)
  {
    hide SenderInv, ReceiverInv, ControlInv, LaterBy, InitialCwnd, Prepare, Restarted;
    PrepareSends(c, now, cfg);
    AllSubmitted(c, cfg);
    AckAlone();
    var d, n := Prepare(c, now, cfg), Sendable(c, now, cfg);
    if n > 0 {
      var k := |c.snd.flights|;
      assert d.snd.flights[k].payload == c.snd.queued[..n];
      assert Last(d.snd.flights) == d.snd.flights[k];
      CutWhole(d.snd, k, if c.peer.window == 0 && c.snd.flights == [] then 1
               else Room(d.cong.cwnd, d.peer.window, d.snd.InFlight()), d.snd.flights[k].persist);
    }
  }

  lemma CutWhole(s: Sender, index: nat, available: nat, persist: bool)
    requires index < |s.flights| && |s.flights[index].payload| <= available && s.flights[index].persist == persist
    ensures CutFlight(s, index, available, persist) == s
  {
    assert s.flights[index := s.flights[index].(persist := persist)] == s.flights;
  }

  /** New data leaves as soon as the windows allow it, and exactly as much as they allow: the front of the queue, at the
      first position not sent before. Its timer and its round trip start now. */
  lemma SendsNew(c: Conn, now: Time, cfg: Config)
    requires Inv(c, cfg) && Ready(c, now, cfg)
    ensures ValidPlan(PlanTransmit(c, now, cfg))
    ensures
      var n, p, d := Sendable(c, now, cfg), PlanTransmit(c, now, cfg), Transmit(c, now, cfg, Accepted);
      if n == 0 then p.index.None? && d.snd == c.snd
      else
        && 0 < n <= |c.snd.queued| && p.index.Some? && Emits(p)
        && var seg := Emission(p, cfg);
           && seg.pos == c.snd.sent && seg.flags == ACK + PSH && seg.payload == c.snd.queued[..n]
           && d.snd.sent == c.snd.sent + n && d.snd.queued == c.snd.queued[n..]
           && d.cong == c.cong.(cwnd := Restarted(c, now, cfg), credit := if Idle(c, now) then 0 else c.cong.credit,
                                lastDataSent := Some(now))
           && |d.snd.flights| == |c.snd.flights| + 1
           && var f := Last(d.snd.flights);
              && f.created == now && f.lastSent == Some(now) && f.sends == [now] && f.rttEligible && f.rto == c.rtt.rto
  {
    hide SenderInv, ReceiverInv, ControlInv, LaterBy, InitialCwnd, Prepare, PlanTransmit, Restarted, AdvertisedWindow;
    AdmitsNew(c, now, cfg);
    PrepareSends(c, now, cfg);
    var d, n := Prepare(c, now, cfg), Sendable(c, now, cfg);
    if n > 0 {
      AckAlone();
      var k := |c.snd.flights|;
      assert d.snd.flights[k].payload == c.snd.queued[..n] && d.snd.flights[k].transmissions == 0;
      assert |MarkSubmitted(d.snd.flights, k, now, cfg)| == k + 1;
    }
  }

  /** A flight that the device has refused so far leaves as soon as it fits, cut to what fits; the rest goes back to
      the front of the queue. A FIN is never used to probe a closed window. */
  lemma SendsWaiting(c: Conn, now: Time, cfg: Config)
    requires Inv(c, cfg) && !c.state.IsSynchronizing() && Unsent(c.snd)
    requires |c.snd.flights| == 1 || !c.snd.flights[0].Due(now)
    ensures ValidPlan(PlanTransmit(c, now, cfg))
    ensures
      var f, p := Last(c.snd.flights), PlanTransmit(c, now, cfg);
      var probe := c.peer.window == 0 && c.snd.sent == c.snd.una;
      var room := if probe then 1 else Usable(c.cong.cwnd, c.peer.window, c.snd.sent - c.snd.una);
      var n := Min(|f.payload|, room);
      if room == 0 || (probe && HasFin(f.flags)) then p.index.None? && p.conn.snd == c.snd
      else
        && p.index.Some? && Emits(p)
        && var seg := Emission(p, cfg);
           && seg.pos == f.pos && seg.flags == f.flags && seg.payload == f.payload[..n]
           && p.conn.snd.queued == f.payload[n..] + c.snd.queued
  {
    hide ReceiverInv, ControlInv, FlowInv, LaterBy, DataRun, PayloadBytes, AdvertisedWindow, HasFin;
    var f, k := Last(c.snd.flights), |c.snd.flights| - 1;
    WaitingPlan(c, now, cfg);
    var probe := c.peer.window == 0 && c.snd.InFlight() == 0;
    var room := if probe then 1 else Room(c.cong.cwnd, c.peer.window, c.snd.InFlight());
    if room > 0 { CutShape(c.snd, room, probe); }
  }

  lemma WaitingPlan(c: Conn, now: Time, cfg: Config)
    requires Inv(c, cfg) && !c.state.IsSynchronizing() && Unsent(c.snd)
    requires |c.snd.flights| == 1 || !c.snd.flights[0].Due(now)
    ensures PlanTransmit(c, now, cfg) == Admit(c, |c.snd.flights| - 1, now)
    ensures !HasSyn(Last(c.snd.flights).flags) && c.snd.una <= c.snd.sent
  {
    hide ReceiverInv, ControlInv, FlowInv, LaterBy, PayloadBytes, Admit;
    SenderMarks(c.state, c.snd, cfg);
    assert SoundFlight(c.snd.flights[|c.snd.flights| - 1], cfg);
    if c.state.IsOpen() {
      RunMember(c.snd.flights, c.snd.iss, c.snd.written, c.snd.una, c.snd.next, |c.snd.flights| - 1);
    }
    hide DataRun, AllSound;
  }

  lemma CutShape(s: Sender, room: nat, persist: bool)
    requires s.flights != []
    ensures
      var f, t := Last(s.flights), CutFlight(s, |s.flights| - 1, room, persist);
      var n := Min(|f.payload|, room);
      && |t.flights| == |s.flights| && t.queued == f.payload[n..] + s.queued
      && Last(t.flights) == f.(payload := f.payload[..n], persist := persist)
  {
    var f := Last(s.flights);
    if |f.payload| <= room {
      assert f.payload[..|f.payload|] == f.payload && f.payload[|f.payload|..] + s.queued == s.queued;
    }
  }

  // ---------------------------------------------------------------- closing and opening

  /** Once everything written has been acknowledged, a closed connection sends its FIN behind it, and moves on. */
  lemma SendsFin(c: Conn, now: Time, cfg: Config)
    requires Inv(c, cfg) && c.state.IsOpen() && c.snd.closed && c.snd.queued == [] && c.snd.flights == []
    requires c.peer.window > 0
    ensures Emits(PlanTransmit(c, now, cfg)) && ValidPlan(PlanTransmit(c, now, cfg))
    ensures
      var seg, d := Emission(PlanTransmit(c, now, cfg), cfg), Transmit(c, now, cfg, Accepted);
      && seg.pos == c.snd.iss + 1 + |c.snd.written| && seg.flags == FIN + ACK && seg.payload == []
      && d.state == (if c.state.CloseWait? then LastAck else FinWait1) && d.snd.sent == seg.pos + 1
  {
    hide ReceiverInv, ControlInv, LaterBy, AdvertisedWindow, AllSound, PayloadBytes, AfterSubmission;
    AckAlone();
    AllSubmitted(c, cfg);
    assert c.snd.flights + [NewFlight(c.snd, c.rtt, FIN + ACK, [], false, now)]
        == [NewFlight(c.snd, c.rtt, FIN + ACK, [], false, now)];
  }

  /** With a closed window the FIN waits, and a segment just below the peer's window asks for news whenever the probe
      timer has run out. */
  lemma ProbesWindow(c: Conn, now: Time, cfg: Config)
    requires Inv(c, cfg) && c.state.IsOpen() && c.snd.closed && c.snd.queued == [] && c.snd.flights == []
    requires c.peer.window == 0
    ensures
      var p, d := PlanTransmit(c, now, cfg), Transmit(c, now, cfg, Accepted);
      var probes := c.ctl.probePending || c.ctl.windowProbeAt <= now;
      && p.index.None? && d.snd == c.snd && d.state == c.state
      && (Emits(p) <==> probes || c.ctl.ackPending)
      && (Emits(p) ==>
            && Emission(p, cfg).flags == ACK && Emission(p, cfg).payload == []
            && Emission(p, cfg).pos == (if c.ctl.ackPending then c.snd.sent else c.snd.sent - 1))
      && !d.ctl.probePending && (probes ==> d.ctl.windowProbeAt == LaterBy(now, c.rtt.rto))
  {
    hide ReceiverInv, FlowInv, LaterBy, AdvertisedWindow, AllSound, PayloadBytes, SenderInv;
    AckAlone();
  }

  /** The first segment of either way of opening is the SYN, which for a passive open acknowledges the peer's. */
  lemma OpensWithSyn(syn: Segment, iss: u32, start: Time, now: Time, cfg: Config)
    requires cfg.Valid()
    ensures
      var a := PlanTransmit(Active(iss, start, cfg), now, cfg);
      var b := PlanTransmit(Passive(syn, iss, start, cfg), now, cfg);
      && Emits(a) && ValidPlan(a) && Emits(b) && ValidPlan(b)
      && var x, y := Emission(a, cfg), Emission(b, cfg);
         && x.pos == y.pos == iss && x.payload == y.payload == [] && x.flags == SYN && y.flags == SYN + ACK
         && x.mss == y.mss == Some(cfg.mss) && y.ack == syn.sequence + 1
         && Passive(syn, iss, start, cfg).peer.window == syn.window
         && Passive(syn, iss, start, cfg).peer.mss == if syn.mss.Some? then syn.mss.value else 536
  {
    hide LaterBy, AdvertisedWindow;
    AckAlone();
  }

  /** The peer's SYN again, before it has our answer, brings the answer again at once, and is no further attempt. */
  lemma AnswersAgain(c: Conn, seg: Seg, at: Time, now: Time, cfg: Config)
    requires Inv(c, cfg) && Settled(c) && c.state.SynReceived?
    requires HasSyn(seg.flags) && !HasAck(seg.flags) && !HasRst(seg.flags) && seg.pos + 1 == c.rcv.next
    ensures
      var d := Input(c, seg, at, cfg);
      var p := PlanTransmit(d, now, cfg);
      && Emits(p) && ValidPlan(p) && Emission(p, cfg).flags == SYN + ACK && Emission(p, cfg).pos == c.snd.iss
      && d.snd.flights != [] && d.snd.flights[0].sends == c.snd.flights[0].sends && d.rcv == c.rcv
  {
    hide ReceiverInv, ControlInv, FlowInv, LaterBy, AdvertisedWindow, AllSound, PayloadBytes, HasSyn, HasAck, HasRst;
    RepeatShape(c, seg, at, cfg);
    AckAlone();
    var d := Input(c, seg, at, cfg);
    InputInv(c, seg, at, cfg);
    hide Input;
    PlanSyn(d, now, cfg);
    DueAtOnce(d, now, cfg);
  }

  lemma DueAtOnce(c: Conn, now: Time, cfg: Config)
    requires c.state.SynReceived? && c.snd.flights != [] && c.snd.flights[0].lastSent.None?
    requires HasSyn(c.snd.flights[0].flags)
    ensures PlanTransmit(c, now, cfg) == Plan(c, Some(0))
  {
    hide LaterBy, HasSyn, HasFin, Room, CutFlight;
  }

  // ---------------------------------------------------------------- the application's calls

  /** What was written and is not yet acknowledged. */
  function Outstanding(s: Sender): int { |s.written| - (s.una - s.iss - 1) }

  lemma BufferedIsOutstanding(c: Conn, cfg: Config)
    requires Inv(c, cfg) && c.state.IsOpen()
    ensures SendBuffered(c.snd) == Outstanding(c.snd)
  {
    hide ReceiverInv, FlowInv, ControlInv, AllSound, SendBuffered, OpenPhase, Outstanding;
    OpenOutstanding(c.snd);
  }

  lemma OpenOutstanding(s: Sender)
    requires OpenPhase(s)
    ensures SendBuffered(s) == Outstanding(s)
  {
    hide DataRun, PayloadBytes, SubmittedEnd;
    RunLength(s.flights, s.iss, s.written, s.una, s.next);
  }

  /** A write takes as many bytes as there is room for beside what is not yet acknowledged, and fails exactly if the
      write side is not open or there is no room. */
  lemma WriteTakes(c: Conn, bytes: seq<byte>, cfg: Config)
    requires Inv(c, cfg)
    ensures
      var r, d := WriteResult(c, bytes, cfg), Write(c, bytes, cfg);
      if c.snd.closed || !c.state.IsOpen() then r == Err(NotConnected) && d == c
      else
        var n := Min(|bytes|, cfg.sendCapacity - Outstanding(c.snd));
        if bytes != [] && n == 0 then r == Err(SendBufferFull) && d == c
        else
          && 0 <= n <= |bytes| && r == Ok(n)
          && d == c.(snd := c.snd.(written := c.snd.written + bytes[..n], queued := c.snd.queued + bytes[..n]))
  {
    hide SendBuffered, ReceiverInv, FlowInv, ControlInv, Phase, AllSound;
    if c.state.IsOpen() { BufferedIsOutstanding(c, cfg); }
    assert c.snd.queued + [] == c.snd.queued && c.snd.written + [] == c.snd.written;
  }

  /** Bytes accepted from the peer and not yet handed to the application; an aborted connection has none to give. */
  function Unread(c: Conn): seq<byte>
    requires |c.rcv.delivered| <= |c.rcv.accepted|
  {
    if c.state.IsAborted() then [] else c.rcv.accepted[|c.rcv.delivered|..]
  }

  /** A read hands over the next bytes, as many as there is room for, and offers the space again; with none left it
      reports the end of the stream exactly if the peer has finished or the connection is closed. */
  lemma ReadReturns(c: Conn, room: nat, cfg: Config)
    requires Inv(c, cfg)
    ensures |c.rcv.delivered| <= |c.rcv.accepted|
    ensures
      var r, d, left := ReadResult(c, room), Read(c, room), Unread(c);
      var n := Min(room, |left|);
      if room == 0 then r == Ok([]) && d == c
      else if c.ctl.localError then r == Err(LocalFailure) && d.rcv.delivered == c.rcv.delivered
      else if c.state.Reset? then r == Err(ConnectionReset) && d == c
      else if c.state.TimedOut? then r == Err(ConnectionTimedOut) && d == c
      else if left != [] then
        r == Ok(left[..n]) && d.rcv.delivered == c.rcv.delivered + left[..n] && |d.rcv.buffer| == |left| - n
        && d.ctl.ackPending
      else d == c && r == if c.rcv.eof || c.state.Closed? then Ok([]) else Err(NoData)
  {
    hide SenderInv, FlowInv, ControlInv;
    if !c.state.IsAborted() {
      assert c.rcv.accepted[|c.rcv.delivered|..] == c.rcv.buffer;
    }
  }

  /** A close is accepted exactly once the connection is established; it ends writing and loses nothing written, and
      accepting it again changes nothing. */
  lemma CloseEnds(c: Conn, now: Time, bytes: seq<byte>, cfg: Config)
    ensures CloseAccepted(c) <==> c.snd.closed || c.state.Established? || c.state.CloseWait?
    ensures
      var d := Close(c, now, cfg);
      if !CloseAccepted(c) || c.snd.closed then d == c
      else
        && d.snd == c.snd.(closed := true) && d.state == c.state && d.rcv == c.rcv
        && d.ctl == c.ctl.(closeDeadline := Some(LaterBy(now, cfg.closeTimeout)))
        && WriteResult(d, bytes, cfg) == Err(NotConnected)
  {
    hide LaterBy, SendBuffered;
  }

  /** An abort drops both buffers, sends nothing more, and tells the reader why. */
  lemma AbortEnds(c: Conn, state: TcpState, room: nat, now: Time, cfg: Config, outcome: DeviceOutcome)
    requires state.IsAborted() && room > 0
    ensures
      var d, l := Fail(c, state), FailLocally(c);
      && d.state == state && l.state == Failed && d.snd.queued == [] && d.snd.flights == [] && d.rcv.buffer == []
      && l.snd == d.snd && l.rcv == d.rcv
      && Transmit(d, now, cfg, outcome) == d && Transmit(l, now, cfg, outcome) == l
      && (state.Reset? ==> ReadResult(d, room) == Err(ConnectionReset))
      && (state.TimedOut? ==> ReadResult(d, room) == Err(ConnectionTimedOut))
      && ReadResult(l, room) == Err(LocalFailure)
  {
    hide PlanTransmit;
  }

  // ---------------------------------------------------------------- what an acknowledgment brings

  /** Every regular segment that is not old has its window considered, whether or not it acknowledges anything new. */
  lemma WindowConsidered(c: Conn, seg: Seg, now: Time, cfg: Config)
    requires Inv(c, cfg) && Synchronized(c.state) && Regular(c, seg, cfg)
    ensures Input(c, seg, now, cfg).peer == if c.snd.una <= seg.ack then UpdateWindow(c, seg).peer else c.peer
  {
    hide Input, Acknowledge, ReceiveData, InWindow, UpdateWindow, HasSyn, HasAck, HasRst, SenderInv, ReceiverInv,
         FlowInv;
    RegularInput(c, seg, now, cfg);
    var d := if c.state.SynReceived? then c.(state := Established, ctl := c.ctl.(phaseDeadline := None)) else c;
    AckWindow(d, seg, now, cfg);
    WindowOnly(c, d, seg);
    EmptyPayload(Acknowledge(d, seg, now, cfg), seg, now, cfg);
  }

  lemma WindowOnly(c: Conn, d: Conn, seg: Seg)
    requires c.peer == d.peer
    ensures UpdateWindow(c, seg).peer == UpdateWindow(d, seg).peer
  {
    hide AnnouncesWindow, StopPersisting;
  }

  lemma AckWindow(c: Conn, seg: Seg, now: Time, cfg: Config)
    ensures Acknowledge(c, seg, now, cfg).peer == if c.snd.una <= seg.ack then UpdateWindow(c, seg).peer else c.peer
  {
    hide UpdateWindow, SweepFrom, UpdateRto, GrowWindow, InitialCwnd, RestartTimer, LaterBy;
  }

  /** The peer's window is taken from the newest segment, by position and then by acknowledgment, within half the
      sequence space of the one it was last taken from. */
  lemma NewestWindow(c: Conn, seg: Seg, sequence: int, ack: int)
    requires c.peer.sequence == Wrap(sequence) && c.peer.ack == Wrap(ack)
    requires -0x8000_0000 < seg.pos - sequence < 0x8000_0000 && -0x8000_0000 < seg.ack - ack < 0x8000_0000
    ensures
      var d := UpdateWindow(c, seg);
      if sequence < seg.pos || (sequence == seg.pos && ack <= seg.ack) then
        && d.peer == PeerView(seg.window, Wrap(seg.pos), Wrap(seg.ack), c.peer.mss)
        && (seg.window > 0 ==> forall i :: 0 <= i < |d.snd.flights| ==> !d.snd.flights[i].persist)
      else d == c
  {
    BeforeIsLess(sequence, seg.pos);
    BeforeIsLess(seg.ack, ack);
    WrapInjective(sequence, seg.pos);
    hide Wrap, Before;
  }

  /** An acknowledgment that moves forward grows the congestion window for the bytes it covers, and starts the timer of
      what is still unacknowledged afresh. */
  lemma AckProgress(c: Conn, seg: Seg, now: Time, cfg: Config)
    requires Inv(c, cfg) && Settled(c) && c.state.IsOpen() && c.snd.una < seg.ack <= c.snd.sent
    ensures
      var d := Acknowledge(c, seg, now, cfg);
      && d.cong == GrowWindow(c.cong, c.peer, seg.ack - c.snd.una, cfg)
      && (d.snd.flights != [] && d.snd.flights[0].transmissions > 0 ==>
            d.snd.flights[0].lastSent == Some(now) && d.snd.flights[0].rto == d.rtt.rto
            && !d.snd.flights[0].rttEligible)
  {
    hide SenderInv, FlowInv, ReceiverInv, UpdateWindow, SweepFrom, UpdateRto, GrowWindow, InitialCwnd;
    UpdateWindowInv(c, seg, cfg);
    var u := UpdateWindow(c, seg);
    SweptOpen(u, seg.ack, now, cfg);
    WindowKeepsMss(c, seg);
    WindowMarked(c, seg);
    SweepMarked(Sweep(u.snd.flights, 0, false, false, false, None, 0), seg.ack, now);
    GrowthByMss(c.cong, c.peer, u.peer, seg.ack - c.snd.una, cfg);
  }

  lemma SweptOpen(c: Conn, ack: int, now: Time, cfg: Config)
    requires SenderInv(c.state, c.snd, cfg) && c.state.IsOpen() && c.snd.una < ack <= c.snd.sent
    ensures
      var w := SweepFlights(c.snd.flights, ack, now);
      !w.fin && !w.syn && w.bytes == ack - c.snd.una
  {
    hide DataRun, AllSound, PayloadBytes, SweepFlights;
    SweepOpen(c.snd, ack, now, cfg);
  }

  /** Flights submitted once and never restarted are timed: completing them alone gives the estimator the time since
      the last of them was submitted. */
  lemma {:induction false} SampleTaken(w: Sweep, fs: seq<Flight>, n: nat, ack: int, now: Time)
    requires w.rest == fs && n <= |fs| && !w.ambiguous && (n == 0 ==> w.sample.Some?)
    requires forall i :: 0 <= i < n ==>
      fs[i].rttEligible && fs[i].transmissions == 1 && fs[i].lastSent.Some? && fs[i].pos < ack && fs[i].End() <= ack
    requires n < |fs| ==> ack <= fs[n].pos
    ensures
      var r := SweepFrom(w, ack, now);
      !r.ambiguous && r.sample == if n == 0 then w.sample else Some(Monus(now, fs[n - 1].lastSent.value))
    decreases n
  {
    if n > 0 {
      var v := Complete(w, now);
      SampleTaken(v, fs[1..], n - 1, ack, now);
    }
  }
}
