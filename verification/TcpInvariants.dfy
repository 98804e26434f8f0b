/**
 What every operation of a TCP connection keeps, and what no operation ever takes back.
 */
module TcpInvariants {
  import opened Prelude
  import opened SequenceNumbers
  import opened TcpSegment
  import opened TcpModel
  import opened TcpFlights

  // ---------------------------------------------------------------- the invariant

  /** The only flight of a synchronizing connection: its SYN at the initial position. */
  predicate SynFlight(f: Flight, iss: int) {
    (f.flags == SYN || f.flags == SYN + ACK) && f.payload == [] && f.pos == iss
  }

  /** The only flight of a finishing connection: its FIN just beyond the last byte written. */
  predicate FinFlight(f: Flight, s: Sender) {
    f.flags == FIN + ACK && f.payload == [] && f.pos == s.iss + 1 + |s.written|
  }

  function SentMark(s: Sender): int { SubmittedEnd(s.flights, s.next) }

  predicate SynPhase(s: Sender) {
    && |s.flights| == 1 && SynFlight(s.flights[0], s.iss)
    && s.una == s.iss && s.next == s.iss + 1 && s.sent == SentMark(s)
    && s.written == s.queued == [] && !s.closed
  }

  /** Acknowledged bytes, flights and queue together are what was written. */
  predicate OpenPhase(s: Sender) {
    && s.iss + 1 <= s.una <= s.next <= s.iss + 1 + |s.written|
    && DataRun(s.flights, s.iss, s.written, s.una, s.next)
    && s.sent == SentMark(s)
    && s.queued == s.written[s.next - s.iss - 1..]
  }

  predicate FinPhase(s: Sender) {
    && |s.flights| == 1 && FinFlight(s.flights[0], s)
    && s.una == s.iss + 1 + |s.written| && s.next == s.una + 1 && s.sent == SentMark(s)
    && s.queued == [] && s.closed
  }

  predicate FinishedPhase(s: Sender) {
    && s.flights == [] && s.queued == [] && s.closed
    && s.una == s.sent == s.next == s.iss + 2 + |s.written|
  }

  predicate AbortedPhase(s: Sender) {
    && s.flights == [] && s.queued == []
    && s.una == s.sent == s.next
    && s.iss <= s.sent <= s.iss + 2 + |s.written|
    && (s.sent == s.iss + 2 + |s.written| ==> s.closed)
  }

  predicate Phase(state: TcpState, s: Sender) {
    if state.IsSynchronizing() then SynPhase(s)
    else if state.IsOpen() then OpenPhase(s)
    else if state.IsFinishing() then FinPhase(s)
    else if state.IsFinished() then FinishedPhase(s)
    else AbortedPhase(s)
  }

  predicate SenderInv(state: TcpState, s: Sender, cfg: Config) {
    && SendBuffered(s) <= cfg.sendCapacity
    && AllSound(s.flights, cfg)
    && Phase(state, s)
    && (state.SynSent? ==> s.flights[0].flags == SYN)
  }

  predicate ReceiverInv(state: TcpState, r: Receiver, cfg: Config) {
    && |r.buffer| <= cfg.receiveCapacity
    && (state.SynSent? ==> !r.known)
    && (!state.SynSent? && !state.IsAborted() ==> r.known)
    && (if state.IsAborted() then r.buffer == [] else r.accepted == r.delivered + r.buffer)
    && r.delivered <= r.accepted
    && (r.known ==> r.next == r.irs + 1 + |r.accepted| + (if r.eof then 1 else 0))
    && (!r.known ==> !r.eof && r.accepted == [])
    && (state.CloseWait? || state.Closing? || state.LastAck? || state.TimeWait? || state.Closed? ==> r.eof)
    && (state.IsSynchronizing() || state.Established? || state.FinWait1? || state.FinWait2? ==> !r.eof)
    && (state.IsSynchronizing() ==> r.accepted == [])
  }

  predicate FlowInv(g: Congestion, r: Rtt, cfg: Config) {
    1 <= g.cwnd <= cfg.maxCwnd && cfg.initialRto <= r.rto <= cfg.maxRto
  }

  predicate ControlInv(state: TcpState, k: Control) {
    && (state.SynSent? ==> !k.ackPending)
    && (state.IsSynchronizing() ==> !k.probePending)
  }

  predicate Inv(c: Conn, cfg: Config) {
    && cfg.Valid()
    && SenderInv(c.state, c.snd, cfg)
    && ReceiverInv(c.state, c.rcv, cfg)
    && FlowInv(c.cong, c.rtt, cfg)
    && ControlInv(c.state, c.ctl)
  }

  // ---------------------------------------------------------------- what never goes back

  predicate SenderExtends(s: Sender, t: Sender) {
    && t.iss == s.iss
    && s.written <= t.written
    && (s.closed ==> t.closed && t.written == s.written)
    && s.una <= t.una
    && s.sent <= t.sent
  }

  predicate ReceiverExtends(r: Receiver, q: Receiver) {
    && r.accepted <= q.accepted
    && r.delivered <= q.delivered
    && (r.known ==> q.known && q.irs == r.irs && r.next <= q.next)
    && (r.eof ==> q.eof && q.accepted == r.accepted)
  }

  predicate StateExtends(state: TcpState, state': TcpState) {
    && (state.IsAborted() ==> state'.IsAborted())
    && (state.Closed? ==> state'.Closed? || state'.IsAborted())
    && (!state.SynSent? ==> !state'.SynSent?)
  }

  predicate Extends(c: Conn, d: Conn) {
    SenderExtends(c.snd, d.snd) && ReceiverExtends(c.rcv, d.rcv) && StateExtends(c.state, d.state)
  }

  lemma ExtendsReflexive(c: Conn)
    ensures Extends(c, c)
  {}

  lemma ExtendsTransitive(c: Conn, d: Conn, e: Conn)
    requires Extends(c, d) && Extends(d, e)
    ensures Extends(c, e)
  {}

  /** Positions are ordered and the outstanding span stays below half the sequence space. */
  lemma SenderMarks(state: TcpState, s: Sender, cfg: Config)
    requires SenderInv(state, s, cfg)
    ensures s.iss <= s.una <= s.sent <= s.next <= s.una + cfg.sendCapacity + 1
    ensures s.sent <= s.iss + 2 + |s.written|
    ensures s.sent == s.iss + 2 + |s.written| ==> s.closed
    ensures !state.IsAborted() && !state.IsSynchronizing() ==> s.iss < s.una
  {
    if state.IsOpen() {
      RunLength(s.flights, s.iss, s.written, s.una, s.next);
    }
  }

  // ---------------------------------------------------------------- opening and application calls

  lemma ActiveInv(iss: u32, now: Time, cfg: Config)
    requires cfg.Valid()
    ensures Inv(Active(iss, now, cfg), cfg)
  {
    var c := Active(iss, now, cfg);
    assert PayloadBytes(c.snd.flights) == 0 by { assert c.snd.flights[1..] == []; }
    assert SequenceLength(SYN, []) == 1;
  }

  lemma PassiveInv(syn: Segment, iss: u32, now: Time, cfg: Config)
    requires cfg.Valid()
    ensures Inv(Passive(syn, iss, now, cfg), cfg)
  {
    ActiveInv(iss, now, cfg);
    var c := Passive(syn, iss, now, cfg);
    assert PayloadBytes(c.snd.flights) == 0 by { assert c.snd.flights[1..] == []; }
  }

  lemma WriteInv(c: Conn, bytes: seq<byte>, cfg: Config)
    requires Inv(c, cfg)
    ensures Inv(Write(c, bytes, cfg), cfg) && Extends(c, Write(c, bytes, cfg))
  {
    hide Phase, AllSound, ReceiverInv, FlowInv, ControlInv, SendBuffered;
    var r := WriteResult(c, bytes, cfg);
    if r.Ok? {
      WriteSender(c.state, c.snd, bytes[..r.value], cfg);
    }
  }

  lemma WriteSender(state: TcpState, s: Sender, more: seq<byte>, cfg: Config)
    requires SenderInv(state, s, cfg) && state.IsOpen() && !s.closed && |more| <= cfg.sendCapacity - SendBuffered(s)
    ensures SenderInv(state, s.(queued := s.queued + more, written := s.written + more), cfg)
  {
    hide DataRun, AllSound, PayloadBytes, SubmittedEnd;
    RunAfterWrite(s.flights, s.iss, s.written, more, s.una, s.next);
    var k := s.next - s.iss - 1;
    assert (s.written + more)[k..] == s.written[k..] + more;
  }

  lemma ReadInv(c: Conn, room: nat, cfg: Config)
    requires Inv(c, cfg)
    ensures Inv(Read(c, room), cfg) && Extends(c, Read(c, room))
  {
    hide SenderInv;
    var d := Read(c, room);
    if d != c {
      var n := |ReadResult(c, room).value|;
      if !c.state.IsAborted() {
        assert c.rcv.buffer == c.rcv.buffer[..n] + c.rcv.buffer[n..];
        assert d.rcv.accepted == d.rcv.delivered + d.rcv.buffer;
      }
    }
  }

  lemma CloseInv(c: Conn, now: Time, cfg: Config)
    requires Inv(c, cfg)
    ensures Inv(Close(c, now, cfg), cfg) && Extends(c, Close(c, now, cfg))
  {
    hide ReceiverInv, FlowInv;
  }

  lemma FailInv(c: Conn, state: TcpState, cfg: Config)
    requires Inv(c, cfg) && state.IsAborted()
    ensures Inv(Fail(c, state), cfg) && Extends(c, Fail(c, state))
    ensures Inv(FailLocally(c), cfg) && Extends(c, FailLocally(c))
  {
    FailSender(c, state, cfg);
    FailSender(c, Failed, cfg);
    hide SenderInv, SenderExtends, FlowInv;
  }

  lemma FailSender(c: Conn, state: TcpState, cfg: Config)
    requires SenderInv(c.state, c.snd, cfg) && state.IsAborted()
    ensures SenderInv(state, Fail(c, state).snd, cfg) && SenderExtends(c.snd, Fail(c, state).snd)
  {
    SenderMarks(c.state, c.snd, cfg);
  }

  lemma TickInv(c: Conn, now: Time, cfg: Config)
    requires Inv(c, cfg)
    ensures Inv(Tick(c, now, cfg), cfg) && Extends(c, Tick(c, now, cfg))
  {
    hide Expired, Fail, FlowInv, DataRun, AllSound, PayloadBytes, SynPhase, OpenPhase, FinPhase, AbortedPhase;
    FailInv(c, TimedOut, cfg);
  }

  // ---------------------------------------------------------------- acknowledgment

  lemma GrowWindowBounds(g: Congestion, p: PeerView, bytes: nat, cfg: Config)
    requires 1 <= g.cwnd <= cfg.maxCwnd && cfg.Valid()
    ensures 1 <= GrowWindow(g, p, bytes, cfg).cwnd <= cfg.maxCwnd
  {}

  lemma InitialCwndBounds(g: Congestion, p: PeerView, cfg: Config)
    requires cfg.Valid()
    ensures 1 <= InitialCwnd(g, p, cfg) <= cfg.maxCwnd
  {
    var mss := SendMss(p, cfg);
    var segments := if g.synRetransmitted then 1 else if mss > 2190 then 2 else if mss > 1095 then 3 else 4;
    var k := Min(cfg.initialCwndSegments, segments);
    assert k == 1 || k == 2 || k == 3 || k == 4;
    assert mss <= mss * k;
  }

  lemma UpdateRtoBounds(r: Rtt, sample: Time, cfg: Config)
    requires cfg.Valid()
    ensures cfg.initialRto <= UpdateRto(r, sample, cfg).rto <= cfg.maxRto
  {}

  lemma {:induction false} PayloadSame(fs: seq<Flight>, gs: seq<Flight>)
    requires SameData(fs, gs)
    ensures PayloadBytes(fs) == PayloadBytes(gs)
  {
    if fs != [] {
      assert SameData(fs[1..], gs[1..]);
      PayloadSame(fs[1..], gs[1..]);
    }
  }

  /** Marks on flights may change freely as long as the submission mark follows. */
  lemma SenderSame(state: TcpState, s: Sender, gs: seq<Flight>, sent: int, cfg: Config)
    requires SenderInv(state, s, cfg) && SameData(s.flights, gs) && AllSound(gs, cfg)
    requires sent == SubmittedEnd(gs, s.next)
    ensures SenderInv(state, s.(flights := gs, sent := sent), cfg)
  {
    hide SynPhase, OpenPhase, FinPhase, FinishedPhase, AbortedPhase, PayloadBytes, AllSound, SameData, SubmittedEnd;
    PayloadSame(s.flights, gs);
    if state.IsSynchronizing() {
      SynSame(s, gs, sent);
    } else if state.IsOpen() {
      OpenSame(s, gs, sent);
    } else if state.IsFinishing() {
      FinSame(s, gs, sent);
    } else {
      DoneSame(state, s, gs, sent);
    }
  }

  lemma SynSame(s: Sender, gs: seq<Flight>, sent: int)
    requires SynPhase(s) && SameData(s.flights, gs) && sent == SubmittedEnd(gs, s.next)
    ensures SynPhase(s.(flights := gs, sent := sent)) && gs[0].flags == s.flights[0].flags
  {}

  lemma OpenSame(s: Sender, gs: seq<Flight>, sent: int)
    requires OpenPhase(s) && SameData(s.flights, gs) && sent == SubmittedEnd(gs, s.next)
    ensures OpenPhase(s.(flights := gs, sent := sent))
  {
    hide DataRun, SameData;
    RunSame(s.flights, gs, s.iss, s.written, s.una, s.next);
  }

  lemma FinSame(s: Sender, gs: seq<Flight>, sent: int)
    requires FinPhase(s) && SameData(s.flights, gs) && sent == SubmittedEnd(gs, s.next)
    ensures FinPhase(s.(flights := gs, sent := sent))
  {}

  lemma DoneSame(state: TcpState, s: Sender, gs: seq<Flight>, sent: int)
    requires Phase(state, s) && SameData(s.flights, gs) && sent == SubmittedEnd(gs, s.next)
    requires state.IsFinished() || state.IsAborted()
    ensures s.(flights := gs, sent := sent) == s
  {}

  lemma SentMarkHolds(state: TcpState, s: Sender, cfg: Config)
    requires SenderInv(state, s, cfg)
    ensures s.sent == SubmittedEnd(s.flights, s.next) && AllSound(s.flights, cfg)
  {
    hide DataRun, AllSound, PayloadBytes;
  }

  lemma StopPersistingSame(fs: seq<Flight>, cfg: Config)
    requires AllSound(fs, cfg)
    ensures SameData(fs, StopPersisting(fs)) && AllSound(StopPersisting(fs), cfg)
  {}

  lemma UpdateWindowSender(state: TcpState, s: Sender, cfg: Config)
    requires SenderInv(state, s, cfg)
    ensures SenderInv(state, s.(flights := StopPersisting(s.flights)), cfg)
  {
    SentMarkHolds(state, s, cfg);
    hide SenderInv;
    var gs := StopPersisting(s.flights);
    StopPersistingSame(s.flights, cfg);
    hide SameData, AllSound;
    SenderSame(state, s, gs, s.sent, cfg);
  }

  lemma UpdateWindowInv(c: Conn, seg: Seg, cfg: Config)
    requires SenderInv(c.state, c.snd, cfg)
    ensures
      var d := UpdateWindow(c, seg);
      && SenderInv(c.state, d.snd, cfg)
      && d.snd == c.snd.(flights := d.snd.flights)
      && d == c.(peer := d.peer, snd := d.snd)
  {
    UpdateWindowSender(c.state, c.snd, cfg);
    hide SenderInv, StopPersisting, AnnouncesWindow, Wrap;
  }

  lemma RestartKeepsSound(fs: seq<Flight>, rto: Time, now: Time, cfg: Config)
    requires AllSound(fs, cfg) && cfg.initialRto <= rto <= cfg.maxRto
    ensures AllSound(RestartTimer(fs, rto, now), cfg)
    ensures SameData(fs, RestartTimer(fs, rto, now))
    ensures EndsUnsent(RestartTimer(fs, rto, now)) == EndsUnsent(fs)
    ensures EndsUnsent(fs) ==> Last(RestartTimer(fs, rto, now)).pos == Last(fs).pos
  {}

  /** The flow-control part of an advance, whatever was acknowledged. */
  lemma AdvanceFlow(c: Conn, ack: int, now: Time, cfg: Config)
    requires cfg.Valid() && FlowInv(c.cong, c.rtt, cfg)
    ensures
      var d := Advance(c, ack, now, cfg);
      && FlowInv(d.cong, d.rtt, cfg) && d.rcv == c.rcv && d.peer == c.peer
      && (!c.state.IsFinishing() ==> d.state == c.state && d.ctl == c.ctl)
  {
    hide SweepFrom, UpdateRto, GrowWindow, InitialCwnd, RestartTimer;
    var w := SweepFlights(c.snd.flights, ack, now);
    GrowWindowBounds(c.cong, c.peer, w.bytes, cfg);
    InitialCwndBounds(c.cong, c.peer, cfg);
    if w.sample.Some? {
      UpdateRtoBounds(c.rtt, w.sample.value, cfg);
    }
  }

  /** The sender after an advance: the sweep's remainder with its timer restarted. */
  lemma AdvanceShape(c: Conn, ack: int, now: Time, cfg: Config)
    requires cfg.Valid() && FlowInv(c.cong, c.rtt, cfg)
    ensures
      var w := SweepFlights(c.snd.flights, ack, now);
      var d := Advance(c, ack, now, cfg);
      && (exists rto :: cfg.initialRto <= rto <= cfg.maxRto
                        && d.snd == c.snd.(flights := RestartTimer(w.rest, rto, now), una := ack))
      && d.state == if w.fin then FinAcknowledged(c, now, cfg).state else c.state
  {
    hide SweepFrom, UpdateRto, GrowWindow, InitialCwnd, RestartTimer;
    var w := SweepFlights(c.snd.flights, ack, now);
    if w.sample.Some? {
      UpdateRtoBounds(c.rtt, w.sample.value, cfg);
    }
    var rto := (if !w.ambiguous && w.sample.Some? then UpdateRto(c.rtt, w.sample.value, cfg) else c.rtt).rto;
    assert Advance(c, ack, now, cfg).snd == c.snd.(flights := RestartTimer(w.rest, rto, now), una := ack);
  }

  /** What the sweep leaves of an open connection's flights. */
  lemma SweepOpen(s: Sender, ack: int, now: Time, cfg: Config)
    requires OpenPhase(s) && AllSound(s.flights, cfg) && s.una < ack <= s.sent
    ensures
      var w := SweepFlights(s.flights, ack, now);
      && !w.fin && !w.syn && w.bytes == ack - s.una
      && DataRun(w.rest, s.iss, s.written, ack, s.next) && AllSound(w.rest, cfg)
      && SubmittedEnd(w.rest, s.next) == s.sent
      && PayloadBytes(w.rest) <= PayloadBytes(s.flights) && ack <= s.next
  {
    var w0 := Sweep(s.flights, 0, false, false, false, None, 0);
    SweepRun(w0, s.iss, s.written, s.una, s.next, ack, now);
    SweepKeepsSound(w0, ack, now, cfg);
    var w := SweepFlights(s.flights, ack, now);
    hide SweepFrom;
    RunLength(s.flights, s.iss, s.written, s.una, s.next);
    RunLength(w.rest, s.iss, s.written, ack, s.next);
    hide DataRun, AllSound, PayloadBytes;
  }

  lemma AdvanceOpenSender(s: Sender, state: TcpState, ack: int, rto: Time, now: Time, cfg: Config)
    requires SenderInv(state, s, cfg) && state.IsOpen()
    requires s.una < ack <= s.sent && cfg.initialRto <= rto <= cfg.maxRto
    ensures
      var w := SweepFlights(s.flights, ack, now);
      && !w.fin && !w.syn && w.bytes == ack - s.una
      && SenderInv(state, s.(flights := RestartTimer(w.rest, rto, now), una := ack), cfg)
  {
    SweepOpen(s, ack, now, cfg);
    var w := SweepFlights(s.flights, ack, now);
    hide SweepFlights;
    RestartKeepsSound(w.rest, rto, now, cfg);
    RunSame(w.rest, RestartTimer(w.rest, rto, now), s.iss, s.written, ack, s.next);
    hide RestartTimer, DataRun, AllSound, PayloadBytes, SameData;
  }

  lemma AdvanceOpen(c: Conn, ack: int, now: Time, cfg: Config)
    requires Inv(c, cfg) && c.state.IsOpen() && c.snd.una < ack <= c.snd.sent
    ensures
      var d := Advance(c, ack, now, cfg);
      && SenderInv(c.state, d.snd, cfg) && SenderExtends(c.snd, d.snd)
      && d.state == c.state && d.snd.una == ack && d.snd.sent == c.snd.sent
  {
    AdvanceShape(c, ack, now, cfg);
    hide Advance, SenderInv, SweepFlights, RestartTimer;
    var d := Advance(c, ack, now, cfg);
    var w := SweepFlights(c.snd.flights, ack, now);
    var rto :| cfg.initialRto <= rto <= cfg.maxRto
               && d.snd == c.snd.(flights := RestartTimer(w.rest, rto, now), una := ack);
    AdvanceOpenSender(c.snd, c.state, ack, rto, now, cfg);
  }

  lemma AdvanceSyn(c: Conn, ack: int, now: Time, cfg: Config)
    requires cfg.Valid() && SynPhase(c.snd) && ack == c.snd.iss + 1
    ensures
      var d := Advance(c, ack, now, cfg);
      && d.snd == c.snd.(flights := [], una := ack) && d.state == c.state
  {
    var f := c.snd.flights[0];
    assert c.snd.flights == [f];
    SweepSingle(f, ack, now);
    hide SweepFrom, UpdateRto, GrowWindow, InitialCwnd;
  }

  lemma AdvanceFin(c: Conn, ack: int, now: Time, cfg: Config)
    requires cfg.Valid() && FinPhase(c.snd) && c.state.IsFinishing() && c.snd.una < ack <= c.snd.sent
    ensures
      var d := Advance(c, ack, now, cfg);
      && d.snd == c.snd.(flights := [], una := ack) && FinishedPhase(d.snd)
      && d.state == (if c.state.FinWait1? then FinWait2 else if c.state.Closing? then TimeWait else Closed)
  {
    var f := c.snd.flights[0];
    assert c.snd.flights == [f];
    SweepSingle(f, ack, now);
    hide SweepFrom, UpdateRto, GrowWindow, InitialCwnd;
  }

  lemma AdvanceFinInv(c: Conn, ack: int, now: Time, cfg: Config)
    requires Inv(c, cfg) && c.state.IsFinishing() && c.snd.una < ack <= c.snd.sent
    ensures
      var d := Advance(c, ack, now, cfg);
      && SenderInv(d.state, d.snd, cfg) && SenderExtends(c.snd, d.snd)
      && d.state.IsFinished() && (d.state.FinWait2? <==> c.state.FinWait1?)
      && d.snd.una == ack && d.snd.sent == c.snd.sent
  {
    AdvanceFin(c, ack, now, cfg);
    hide Advance;
  }

  lemma AcknowledgeInv(c: Conn, seg: Seg, now: Time, cfg: Config)
    requires Inv(c, cfg) && !c.state.IsSynchronizing() && !c.state.IsTerminal()
    requires seg.ack <= c.snd.sent
    ensures
      var d := Acknowledge(c, seg, now, cfg);
      && Inv(d, cfg) && Extends(c, d) && d.rcv == c.rcv
      && d.snd.una == Max(c.snd.una, seg.ack) && d.snd.sent == c.snd.sent
      && !d.state.IsSynchronizing() && !d.state.IsAborted()
  {
    hide Advance, UpdateWindow, FlowInv, DataRun, AllSound, PayloadBytes;
    ExtendsReflexive(c);
    UpdateWindowInv(c, seg, cfg);
    var u := UpdateWindow(c, seg);
    if seg.ack > c.snd.una {
      AdvanceFlow(u, seg.ack, now, cfg);
      if c.state.IsOpen() {
        AdvanceOpen(u, seg.ack, now, cfg);
        hide SenderInv;
      } else if c.state.IsFinishing() {
        AdvanceFinInv(u, seg.ack, now, cfg);
        hide SenderInv;
      }
    }
  }

  /** The SYN is acknowledged: the send side becomes that of an established connection. */
  lemma AcknowledgeSynInv(c: Conn, seg: Seg, now: Time, cfg: Config)
    requires cfg.Valid() && SenderInv(SynReceived, c.snd, cfg) && FlowInv(c.cong, c.rtt, cfg)
    requires c.state.IsSynchronizing() || c.state.IsOpen()
    requires seg.ack == c.snd.sent && c.snd.sent != c.snd.una
    ensures
      var d := Acknowledge(c, seg, now, cfg);
      && SenderInv(Established, d.snd, cfg) && SenderExtends(c.snd, d.snd)
      && FlowInv(d.cong, d.rtt, cfg)
      && d.snd.una == seg.ack && d.snd.sent == c.snd.sent && d.rcv == c.rcv && d.ctl == c.ctl && d.state == c.state
  {
    hide Advance, UpdateWindow, FlowInv, AllSound;
    UpdateWindowInv(c.(state := SynReceived), seg, cfg);
    UpdateWindowState(c, seg);
    var u := UpdateWindow(c, seg);
    AdvanceSyn(u, seg.ack, now, cfg);
    AdvanceFlow(u, seg.ack, now, cfg);
    assert Acknowledge(c, seg, now, cfg) == Advance(u, seg.ack, now, cfg);
    hide Acknowledge;
    SynAcknowledgedSender(u.snd, cfg);
    hide SenderInv;
  }

  lemma SynAcknowledgedSender(s: Sender, cfg: Config)
    requires SenderInv(SynReceived, s, cfg) && s.sent != s.una
    ensures s.sent == s.iss + 1
    ensures
      var t := s.(flights := [], una := s.sent);
      SenderInv(Established, t, cfg) && SenderExtends(s, t)
  {
    hide SynPhase, OpenPhase;
    SynAcknowledgedPhase(s);
  }

  lemma SynAcknowledgedPhase(s: Sender)
    requires SynPhase(s) && s.sent != s.una
    ensures s.sent == s.iss + 1 && s.una <= s.sent && s.queued == []
    ensures OpenPhase(s.(flights := [], una := s.sent))
  {
    hide SynFlight;
    assert SynFlight(s.flights[0], s.iss);
    assert s.flights[0].pos == s.iss by { SynFlightPos(s.flights[0], s.iss); }
  }

  lemma SynFlightPos(f: Flight, iss: int)
    requires SynFlight(f, iss)
    ensures f.pos == iss
  {}

  lemma UpdateWindowState(c: Conn, seg: Seg)
    ensures UpdateWindow(c, seg) == UpdateWindow(c.(state := SynReceived), seg).(state := c.state)
  {
    hide AnnouncesWindow, Wrap, StopPersisting;
  }

  // ---------------------------------------------------------------- received data

  lemma AcceptBytesInv(r: Receiver, seg: Seg, window: nat, cfg: Config)
    requires seg.pos <= r.next <= seg.pos + |seg.payload|
    requires window <= cfg.receiveCapacity - |r.buffer|
    requires r.known && !r.eof && r.accepted == r.delivered + r.buffer
    requires r.next == r.irs + 1 + |r.accepted|
    ensures
      var q := AcceptBytes(r, seg, window);
      && |q.buffer| <= cfg.receiveCapacity
      && q.accepted == q.delivered + q.buffer
      && q.next == q.irs + 1 + |q.accepted|
      && q.known && !q.eof && q.irs == r.irs && q.delivered == r.delivered
      && r.accepted <= q.accepted && r.next <= q.next <= r.next + window
  {}

  lemma DataAcceptedInv(c: Conn, seg: Seg, cfg: Config)
    requires Inv(c, cfg) && TakesData(c, seg, cfg)
    ensures
      var d := WantAck(c).(rcv := AcceptBytes(c.rcv, seg, AdvertisedWindow(c.rcv, cfg)));
      Inv(d, cfg) && Extends(c, d)
  {
    AcceptBytesInv(c.rcv, seg, AdvertisedWindow(c.rcv, cfg), cfg);
    hide SenderInv, FlowInv, AcceptBytes;
  }

  lemma PeerFinishedInv(c: Conn, now: Time, cfg: Config)
    requires Inv(c, cfg) && (c.state.Established? || c.state.FinWait1? || c.state.FinWait2?)
    ensures
      var d := PeerFinished(c, now, cfg);
      Inv(d, cfg) && Extends(c, d) && d.snd == c.snd && !d.state.IsSynchronizing() && !d.state.IsAborted()
  {
    SenderStates(c.state, c.snd, cfg);
    hide SenderInv, FlowInv;
  }

  lemma ReceiveDataInv(c: Conn, seg: Seg, now: Time, cfg: Config)
    requires Inv(c, cfg) && !c.state.IsSynchronizing() && !c.state.IsTerminal()
    ensures
      var d := ReceiveData(c, seg, now, cfg);
      && Inv(d, cfg) && Extends(c, d) && d.snd == c.snd && !d.state.IsSynchronizing() && !d.state.IsAborted()
  {
    ExtendsReflexive(c);
    hide SenderInv, ReceiverInv, FlowInv, HasFin, PeerFinished, SenderExtends, ReceiverExtends;
    if TakesData(c, seg, cfg) {
      DataAcceptedInv(c, seg, cfg);
      var d := WantAck(c).(rcv := AcceptBytes(c.rcv, seg, AdvertisedWindow(c.rcv, cfg)));
      PeerFinishedInv(d, now, cfg);
      ExtendsTransitive(c, d, PeerFinished(d, now, cfg));
    }
    hide AcceptBytes, TakesData, StateExtends;
  }

  /** Some transitions change the state but not the phase of the send side. */
  lemma SenderStates(state: TcpState, s: Sender, cfg: Config)
    requires SenderInv(state, s, cfg)
    ensures state.SynSent? ==> SenderInv(SynReceived, s, cfg)
    ensures state.Established? ==> SenderInv(CloseWait, s, cfg)
    ensures state.FinWait1? ==> SenderInv(Closing, s, cfg)
    ensures state.FinWait2? ==> SenderInv(TimeWait, s, cfg)
  {
    hide DataRun, AllSound, PayloadBytes, SynFlight, FinFlight;
  }

  // ---------------------------------------------------------------- segment arrival

  lemma InputInv(c: Conn, seg: Seg, now: Time, cfg: Config)
    requires Inv(c, cfg)
    ensures Inv(Input(c, seg, now, cfg), cfg) && Extends(c, Input(c, seg, now, cfg))
  {
    hide Acceptable, HasSyn, HasAck, HasFin, HasRst, InputAcknowledged, ResendSyn, Fail, InputSynSent;
    hide SenderInv, FlowInv, SenderExtends, ReceiverExtends;
    ExtendsReflexive(c);
    FailInv(c, Reset, cfg);
    if c.state.IsTerminal() || c.state.TimeWait? {
    } else if c.state.SynSent? {
      InputSynSentInv(c, seg, now, cfg);
    } else if RepeatsSyn(c, seg) {
      ResendSynInv(c, cfg);
    } else if Acceptable(c.rcv, seg, cfg) && seg.ack <= c.snd.sent {
      InputAcknowledgedInv(c, seg, now, cfg);
    }
  }

  lemma ResendSynInv(c: Conn, cfg: Config)
    requires Inv(c, cfg) && c.state.SynReceived?
    ensures Inv(ResendSyn(c), cfg) && Extends(c, ResendSyn(c))
  {
    SenderSame(c.state, c.snd, ResendSyn(c).snd.flights, c.snd.sent, cfg);
    hide SenderInv, FlowInv;
  }

  lemma EstablishedReceiver(r: Receiver, irs: int, cfg: Config)
    requires ReceiverInv(SynSent, r, cfg)
    ensures
      var q := r.(known := true, irs := irs, next := irs + 1);
      ReceiverInv(Established, q, cfg) && ReceiverExtends(r, q)
  {}

  /** Accepting the peer's SYN-ACK establishes the connection. */
  lemma EstablishedInv(c: Conn, seg: Seg, now: Time, cfg: Config)
    requires Inv(c, cfg) && c.state.SynSent? && seg.ack == c.snd.sent && c.snd.sent != c.snd.una
    ensures Inv(Establish(c, seg, now, cfg), cfg) && Extends(c, Establish(c, seg, now, cfg))
    ensures Establish(c, seg, now, cfg).state.Established?
  {
    hide Acknowledge, Wrap, SenderInv, ReceiverInv, FlowInv, SenderExtends, ReceiverExtends;
    SenderStates(c.state, c.snd, cfg);
    EstablishedReceiver(c.rcv, seg.pos, cfg);
    var d := c.(rcv := c.rcv.(known := true, irs := seg.pos, next := seg.pos + 1),
                peer := PeerView(seg.window, Wrap(seg.pos), Wrap(seg.ack), MssOrDefault(seg.mss)));
    AcknowledgeSynInv(d, seg, now, cfg);
    var a := Acknowledge(d, seg, now, cfg);
    assert Establish(c, seg, now, cfg)
        == a.(state := Established, ctl := a.ctl.(phaseDeadline := None, ackPending := true));
    hide Establish;
  }

  lemma InputSynSentInv(c: Conn, seg: Seg, now: Time, cfg: Config)
    requires Inv(c, cfg) && c.state.SynSent?
    ensures Inv(InputSynSent(c, seg, now, cfg), cfg) && Extends(c, InputSynSent(c, seg, now, cfg))
  {
    hide Establish, ReceiveData, Fail, HasSyn, HasAck, HasFin, HasRst, WithoutSyn;
    hide SenderInv, ReceiverInv, FlowInv, SenderExtends, ReceiverExtends;
    ExtendsReflexive(c);
    FailInv(c, Reset, cfg);
    if seg.ack == c.snd.sent && c.snd.sent != c.snd.una {
      EstablishedInv(c, seg, now, cfg);
      var e := Establish(c, seg, now, cfg);
      var data := seg.(pos := seg.pos + 1, flags := WithoutSyn(seg.flags));
      ReceiveDataInv(e, data, now, cfg);
      ExtendsTransitive(c, e, ReceiveData(e, data, now, cfg));
    }
  }

  lemma SynAcknowledgedInv(c: Conn, seg: Seg, now: Time, cfg: Config)
    requires Inv(c, cfg) && c.state.SynReceived? && seg.ack == c.snd.sent && c.snd.sent != c.snd.una
    ensures
      var d := Acknowledge(c.(state := Established, ctl := c.ctl.(phaseDeadline := None)), seg, now, cfg);
      && Inv(d, cfg) && Extends(c, d) && d.state.Established?
      && d.snd.una == seg.ack && d.snd.sent == c.snd.sent && d.rcv == c.rcv
  {
    hide Acknowledge, SenderInv, FlowInv, SenderExtends;
    AcknowledgeSynInv(c.(state := Established, ctl := c.ctl.(phaseDeadline := None)), seg, now, cfg);
  }

  lemma InputAcknowledgedInv(c: Conn, seg: Seg, now: Time, cfg: Config)
    requires Inv(c, cfg) && !c.state.SynSent? && !c.state.IsTerminal()
    requires seg.ack <= c.snd.sent
    ensures
      var e := InputAcknowledged(c, seg, now, cfg);
      && Inv(e, cfg) && Extends(c, e) && e.snd.sent == c.snd.sent
      && (e.snd.una == c.snd.una || e.snd.una == seg.ack)
      && (e.state.IsSynchronizing() ==> e == c) && !e.state.IsAborted()
  {
    ExtendsReflexive(c);
    hide Acknowledge, ReceiveData, SenderInv, ReceiverInv, FlowInv, SenderExtends, ReceiverExtends, StateExtends;
    if c.state.SynReceived? {
      if seg.ack == c.snd.sent && c.snd.sent != c.snd.una {
        SynAcknowledgedInv(c, seg, now, cfg);
        var e := Acknowledge(c.(state := Established, ctl := c.ctl.(phaseDeadline := None)), seg, now, cfg);
        ReceiveDataInv(e, seg, now, cfg);
        ExtendsTransitive(c, e, ReceiveData(e, seg, now, cfg));
      }
    } else {
      AcknowledgeInv(c, seg, now, cfg);
      var e := Acknowledge(c, seg, now, cfg);
      if !e.state.IsTerminal() {
        ReceiveDataInv(e, seg, now, cfg);
        ExtendsTransitive(c, e, ReceiveData(e, seg, now, cfg));
      }
    }
  }

  // ---------------------------------------------------------------- transmission

  lemma PrepareInv(c: Conn, now: Time, cfg: Config)
    requires Inv(c, cfg)
    ensures Inv(Prepare(c, now, cfg), cfg) && Extends(c, Prepare(c, now, cfg))
    ensures Prepare(c, now, cfg).rcv == c.rcv
    ensures Prepare(c, now, cfg).state == c.state || Prepare(c, now, cfg).state.IsFinishing()
  {
    ExtendsReflexive(c);
    hide PrepareData, PrepareFin, SenderInv, FlowInv, ReceiverInv, SenderExtends, ReceiverExtends;
    if MayPrepare(c, cfg) {
      if c.snd.queued != [] {
        PrepareDataInv(c, now, cfg);
      } else if c.snd.flights == [] && c.snd.closed {
        PrepareFinInv(c, now, cfg);
      }
    }
  }

  lemma SliceTwice(w: seq<byte>, k: nat, n: nat)
    requires k + n <= |w|
    ensures w[k..][..n] == w[k..k + n] && w[k..][n..] == w[k + n..]
  {}

  lemma DataLength(f: Flight)
    requires f.flags == ACK + PSH
    ensures f.End() == f.pos + |f.payload|
  {}

  lemma PrepareDataSender(s: Sender, state: TcpState, rtt: Rtt, n: nat, persist: bool, now: Time, cfg: Config)
    requires SenderInv(state, s, cfg) && state.IsOpen() && !Unsent(s)
    requires 0 < n <= |s.queued| && n <= cfg.mss && cfg.initialRto <= rtt.rto <= cfg.maxRto
    ensures
      var f := NewFlight(s, rtt, ACK + PSH, s.queued[..n], persist, now);
      SenderInv(state, s.(flights := s.flights + [f], queued := s.queued[n..], next := f.End()), cfg)
  {
    hide DataRun, PayloadBytes, HasSyn, HasFin;
    var f := NewFlight(s, rtt, ACK + PSH, s.queued[..n], persist, now);
    SliceTwice(s.written, s.next - s.iss - 1, n);
    DataLength(f);
    assert DataFlight(f, s.iss, s.written);
    hide DataFlight, SequenceLength;
    RunAppend(s.flights, f, s.iss, s.written, s.una, s.next);
  }

  lemma PrepareDataInv(c: Conn, now: Time, cfg: Config)
    requires Inv(c, cfg) && MayPrepare(c, cfg)
    ensures Inv(PrepareData(c, now, cfg), cfg) && Extends(c, PrepareData(c, now, cfg))
    ensures PrepareData(c, now, cfg).rcv == c.rcv && PrepareData(c, now, cfg).state == c.state
  {
    hide InitialCwnd, Room, SenderInv, ReceiverInv;
    InitialCwndBounds(c.cong, c.peer, cfg);
    var d := PrepareData(c, now, cfg);
    if d.snd != c.snd {
      var f := Last(d.snd.flights);
      PrepareDataSender(c.snd, c.state, c.rtt, |f.payload|, f.persist, now, cfg);
    }
  }

  /** A FIN is created only when every byte written has been acknowledged. */
  lemma PrepareFinInv(c: Conn, now: Time, cfg: Config)
    requires Inv(c, cfg) && MayPrepare(c, cfg) && c.snd.queued == [] && c.snd.flights == [] && c.snd.closed
    ensures Inv(PrepareFin(c, now), cfg) && Extends(c, PrepareFin(c, now))
    ensures PrepareFin(c, now).state.IsFinishing() ==> c.snd.una == c.snd.iss + 1 + |c.snd.written|
    ensures PrepareFin(c, now).rcv == c.rcv
    ensures PrepareFin(c, now).state == c.state || PrepareFin(c, now).state.IsFinishing()
  {
    hide SenderInv, ReceiverInv, FlowInv, StartFlight;
    ExtendsReflexive(c);
    OpenEmpty(c, cfg);
    if c.peer.window > 0 {
      FinSender(c, now, cfg);
    }
  }

  lemma OpenEmpty(c: Conn, cfg: Config)
    requires SenderInv(c.state, c.snd, cfg) && c.state.IsOpen() && c.snd.queued == [] && c.snd.flights == []
    ensures c.snd.una == c.snd.next == c.snd.sent == c.snd.iss + 1 + |c.snd.written|
  {
    hide PayloadBytes, AllSound;
  }

  lemma FinSender(c: Conn, now: Time, cfg: Config)
    requires cfg.Valid() && SenderInv(c.state, c.snd, cfg)
    requires FlowInv(c.cong, c.rtt, cfg) && ReceiverInv(c.state, c.rcv, cfg)
    requires c.state.IsOpen() && c.snd.queued == [] && c.snd.flights == [] && c.snd.closed
    ensures
      var d := StartFlight(c, FIN + ACK, [], false, now);
      var state := if c.state.CloseWait? then LastAck else FinWait1;
      && d == c.(snd := d.snd) && SenderExtends(c.snd, d.snd)
      && SenderInv(state, d.snd, cfg) && ReceiverInv(state, c.rcv, cfg)
  {
    hide DataRun;
    OpenEmpty(c, cfg);
    var d := StartFlight(c, FIN + ACK, [], false, now);
    assert d.snd.flights == [d.snd.flights[0]] && d.snd.flights[1..] == [];
    assert PayloadBytes(d.snd.flights) == 0;
  }

  lemma OnlyLastUnsent(state: TcpState, s: Sender, index: nat, cfg: Config)
    requires SenderInv(state, s, cfg) && index < |s.flights| && s.flights[index].transmissions == 0
    ensures index == |s.flights| - 1
  {
    if state.IsOpen() {
      RunMember(s.flights, s.iss, s.written, s.una, s.next, index);
    }
  }

  /** Bytes trimmed from an unsent flight go back to the front of the queue: nothing is lost,
      duplicated or moved to another position. */
  lemma TrimInv(state: TcpState, s: Sender, keep: nat, cfg: Config)
    requires SenderInv(state, s, cfg) && !state.IsSynchronizing() && Unsent(s) && keep > 0
    ensures
      var t := TrimLast(s, keep);
      && SenderInv(state, t, cfg) && |t.flights| == |s.flights|
      && t == s.(flights := t.flights, queued := t.queued, next := t.next)
      && |Last(t.flights).payload| <= keep && Last(t.flights).transmissions == 0
      && Last(t.flights).flags == Last(s.flights).flags
  {
    if |Last(s.flights).payload| > keep {
      TrimOpen(s, keep, cfg);
    }
  }

  lemma TrimOpen(s: Sender, keep: nat, cfg: Config)
    requires OpenPhase(s) && Unsent(s) && 0 < keep < |Last(s.flights).payload|
    requires SendBuffered(s) <= cfg.sendCapacity && AllSound(s.flights, cfg)
    ensures
      var t := TrimLast(s, keep);
      OpenPhase(t) && SendBuffered(t) <= cfg.sendCapacity && AllSound(t.flights, cfg)
  {
    hide DataRun, PayloadBytes, SequenceLength;
    var t := TrimLast(s, keep);
    var f, g := Last(s.flights), Last(t.flights);
    RunLength(s.flights, s.iss, s.written, s.una, s.next);
    RunTrimLast(s.flights, g, keep, s.iss, s.written, s.una, s.next);
    TrimQueue(s.written, f.pos - s.iss - 1, |f.payload|, keep);
    TrimSound(s.flights, g, keep, cfg);
    hide AllSound;
  }

  lemma TrimSound(fs: seq<Flight>, g: Flight, keep: nat, cfg: Config)
    requires AllSound(fs, cfg) && fs != [] && keep <= |Last(fs).payload|
    requires g == Last(fs).(payload := Last(fs).payload[..keep])
    ensures AllSound(fs[|fs| - 1 := g], cfg)
  {
    assert SoundFlight(Last(fs), cfg);
  }

  lemma TrimQueue(w: seq<byte>, k: nat, n: nat, keep: nat)
    requires keep <= n && k + n <= |w|
    ensures w[k..k + n][keep..] + w[k + n..] == w[k + keep..]
  {}

  lemma MarkPersist(state: TcpState, s: Sender, index: nat, persist: bool, cfg: Config)
    requires SenderInv(state, s, cfg) && index < |s.flights|
    ensures SenderInv(state, s.(flights := s.flights[index := s.flights[index].(persist := persist)]), cfg)
  {
    hide SenderInv;
    SentMarkHolds(state, s, cfg);
    SenderSame(state, s, s.flights[index := s.flights[index].(persist := persist)], s.sent, cfg);
  }

  /** The chosen flight, cut to the open window and marked. */
  lemma CutFlightInv(state: TcpState, s: Sender, available: nat, persist: bool, cfg: Config)
    requires SenderInv(state, s, cfg) && !state.IsSynchronizing() && Unsent(s) && available > 0
    ensures
      var k := |s.flights| - 1;
      var u := CutFlight(s, k, available, persist);
      && SenderInv(state, u, cfg) && SenderExtends(s, u) && |u.flights| == |s.flights|
      && u == s.(flights := u.flights, queued := u.queued, next := u.next)
      && |u.flights[k].payload| <= available && u.flights[k].transmissions == 0
      && u.flights[k].flags == s.flights[k].flags
  {
    TrimInv(state, s, available, cfg);
    hide SenderInv, TrimLast;
    MarkPersist(state, TrimLast(s, available), |s.flights| - 1, persist, cfg);
  }

  lemma AdmitInv(c: Conn, index: nat, now: Time, cfg: Config)
    requires Inv(c, cfg) && ChooseFlight(c.snd, now) == Some(index)
    ensures index < |c.snd.flights|
    ensures
      var p := Admit(c, index, now);
      Inv(p.conn, cfg) && Extends(c, p.conn) && ValidPlan(p) && p.conn.rcv == c.rcv && p.conn.state == c.state
  {
    hide SenderInv, ReceiverInv, FlowInv, ControlInv, CutFlight, Room, SenderExtends, ReceiverExtends, HasSyn, HasFin;
    ExtendsReflexive(c);
    var s := c.snd;
    var f := s.flights[index];
    if f.transmissions == 0 && !HasSyn(f.flags) {
      SynchronizingFlags(c, index, cfg);
      OnlyLastUnsent(c.state, s, index, cfg);
      var persist := c.peer.window == 0 && s.InFlight() == 0;
      var available := if persist then 1 else Room(c.cong.cwnd, c.peer.window, s.InFlight());
      ProbeControl(c.state, c.ctl);
      if available > 0 {
        CutFlightInv(c.state, s, available, persist, cfg);
        var u := CutFlight(s, index, available, persist);
        assert Inv(c.(snd := u), cfg) && Extends(c, c.(snd := u));
      }
    }
  }

  lemma ProbeControl(state: TcpState, k: Control)
    requires ControlInv(state, k) && !state.IsSynchronizing()
    ensures ControlInv(state, k.(probePending := true))
  {}

  lemma SynchronizingFlags(c: Conn, index: nat, cfg: Config)
    requires Inv(c, cfg) && index < |c.snd.flights| && !HasSyn(c.snd.flights[index].flags)
    ensures !c.state.IsSynchronizing()
  {}

  lemma PlanInv(c: Conn, now: Time, cfg: Config)
    requires Inv(c, cfg)
    ensures
      var p := PlanTransmit(c, now, cfg);
      && Inv(p.conn, cfg) && Extends(c, p.conn) && ValidPlan(p) && p.conn.rcv == c.rcv
      && (p.conn.state == c.state || p.conn.state.IsFinishing())
  {
    hide Prepare, Admit, SenderInv, ReceiverInv, FlowInv;
    PrepareInv(c, now, cfg);
    var d := Prepare(c, now, cfg);
    var index := ChooseFlight(d.snd, now);
    if index.Some? {
      AdmitInv(d, index.value, now, cfg);
    }
  }

  lemma SubmittedMarks(c: Conn, index: nat, now: Time, cfg: Config)
    requires cfg.Valid() && AllSound(c.snd.flights, cfg) && index < |c.snd.flights|
    ensures
      var fs, gs := c.snd.flights, Submitted(c, index, now, cfg).snd.flights;
      && SameData(fs, gs) && AllSound(gs, cfg)
      && gs[index].transmissions > 0
      && (forall i :: 0 <= i < |fs| && i != index ==> gs[i].transmissions == fs[i].transmissions)
  {
    hide OnLoss;
    assert SoundFlight(c.snd.flights[index], cfg);
  }

  /** Submitting the newest flight moves the submission mark to its end; a retransmission leaves it. */
  lemma SubmittedMark(state: TcpState, s: Sender, gs: seq<Flight>, index: nat, cfg: Config)
    requires SenderInv(state, s, cfg) && index < |s.flights|
    requires SameData(s.flights, gs) && gs[index].transmissions > 0
    requires forall i :: 0 <= i < |gs| && i != index ==> gs[i].transmissions == s.flights[i].transmissions
    ensures Max(s.sent, s.flights[index].End()) == SubmittedEnd(gs, s.next)
  {
    if state.IsOpen() {
      RunMember(s.flights, s.iss, s.written, s.una, s.next, index);
      RunLength(s.flights, s.iss, s.written, s.una, s.next);
    }
    hide DataRun, DataFlight, PayloadBytes, AllSound;
  }

  lemma SubmittedSender(c: Conn, index: nat, now: Time, cfg: Config)
    requires cfg.Valid() && SenderInv(c.state, c.snd, cfg) && index < |c.snd.flights|
    ensures
      var t := Submitted(c, index, now, cfg).snd;
      && SenderInv(c.state, t, cfg) && SenderExtends(c.snd, t)
      && t == c.snd.(flights := t.flights, sent := t.sent)
      && t.sent == Max(c.snd.sent, c.snd.flights[index].End())
  {
    var s := c.snd;
    var t := Submitted(c, index, now, cfg).snd;
    SubmittedMarks(c, index, now, cfg);
    assert t == s.(flights := t.flights, sent := Max(s.sent, s.flights[index].End()));
    hide Submitted, SenderInv;
    SubmittedMark(c.state, s, t.flights, index, cfg);
    SenderSame(c.state, s, t.flights, t.sent, cfg);
  }

  lemma SubmittedInv(c: Conn, index: nat, now: Time, cfg: Config)
    requires Inv(c, cfg) && index < |c.snd.flights|
    ensures
      var d := Submitted(c, index, now, cfg);
      && Inv(d, cfg) && Extends(c, d)
      && d.rcv == c.rcv && d.ctl == c.ctl && d.state == c.state
  {
    SubmittedSender(c, index, now, cfg);
    assert SoundFlight(c.snd.flights[index], cfg);
    hide SenderInv, SenderExtends, ReceiverInv, ForgetSamples;
  }

  lemma TransmitInv(c: Conn, now: Time, cfg: Config, outcome: DeviceOutcome)
    requires Inv(c, cfg)
    ensures Inv(Transmit(c, now, cfg, outcome), cfg) && Extends(c, Transmit(c, now, cfg, outcome))
    ensures Transmit(c, now, cfg, outcome).rcv == c.rcv
  {
    ExtendsReflexive(c);
    hide PlanTransmit, Submitted, SenderInv, ReceiverInv, FlowInv, SenderExtends, ReceiverExtends, Emission;
    if !c.state.IsTerminal() {
      PlanInv(c, now, cfg);
      var p := PlanTransmit(c, now, cfg);
      if p.index.Some? {
        SubmittedInv(p.conn, p.index.value, now, cfg);
        ExtendsTransitive(c, p.conn, Submitted(p.conn, p.index.value, now, cfg));
      }
    }
  }
}
