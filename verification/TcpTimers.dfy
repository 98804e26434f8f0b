/**
 Deadlines: which are set in which state, what a tick decides, and how long a connection can go on without
 progress.
 */
module TcpTimers {
  import opened Prelude
  import opened SequenceNumbers
  import opened TcpSegment
  import opened TcpModel
  import opened TcpFlights
  import opened TcpInvariants
  import opened TcpProperties
  import opened TcpReception

  // ---------------------------------------------------------------- which deadlines are set

  /** A handshake and TIME-WAIT have a deadline; closing has one from the close call to TIME-WAIT or the end. */
  predicate Timed(state: TcpState, k: Control, closed: bool) {
    if state.IsTerminal() then k.phaseDeadline.None? && k.closeDeadline.None?
    else if state.IsSynchronizing() then k.phaseDeadline.Some? && k.closeDeadline.None? && !closed
    else if state.TimeWait? then k.phaseDeadline.Some? && k.closeDeadline.None?
    else k.phaseDeadline.None? && (k.closeDeadline.Some? <==> closed)
  }

  /** A connection opened by the peer's SYN answers it with its own and an acknowledgment. */
  predicate Answering(c: Conn) { c.state.SynReceived? ==> c.snd.flights != [] && c.snd.flights[0].flags == SYN + ACK }

  /** Whatever was submitted has a timer. */
  predicate Marked(fs: seq<Flight>) { forall i :: 0 <= i < |fs| ==> fs[i].transmissions > 0 ==> fs[i].lastSent.Some? }

  predicate Settled(c: Conn) {
    Timed(c.state, c.ctl, c.snd.closed) && Answering(c) && (!c.state.IsSynchronizing() ==> Marked(c.snd.flights))
  }

  /** Deadlines once set stand: that of the handshake until it is over, that of closing until TIME-WAIT or the
      end. */
  predicate Stand(c: Conn, d: Conn) {
    && (d.state.IsSynchronizing() ==> c.state.IsSynchronizing() && d.ctl.phaseDeadline == c.ctl.phaseDeadline)
    && (c.snd.closed ==> d.snd.closed)
    && (c.snd.closed && !d.state.IsTerminal() && !d.state.TimeWait? ==>
          !c.state.IsTerminal() && !c.state.TimeWait? && d.ctl.closeDeadline == c.ctl.closeDeadline)
  }

  lemma StandOn(c: Conn, d: Conn, e: Conn)
    requires Stand(c, d) && Stand(d, e)
    ensures Stand(c, e)
  {}

  lemma InputSettled(c: Conn, seg: Seg, now: Time, cfg: Config)
    requires Inv(c, cfg) && Settled(c)
    ensures Settled(Input(c, seg, now, cfg)) && Stand(c, Input(c, seg, now, cfg))
  {
    hide SenderInv, ReceiverInv, FlowInv, ControlInv, Input, LaterBy, Regular, Answers, InWindow, HasSyn, HasRst,
         HasAck, HasFin;
    var d := Input(c, seg, now, cfg);
    if c.state.IsTerminal() {
      assert d == c by { TerminalInput(c, seg, now, cfg); }
    } else if c.state.TimeWait? {
      TimeWaitKept(c, seg, now, cfg);
    } else if HasRst(seg.flags) {
      ResetExactly(c, seg, now, cfg);
      if d.state.Reset? { ResetShape(c, seg, now, cfg); }
    } else if c.state.SynSent? {
      SynSentShape(c, seg, now, cfg);
    } else if Regular(c, seg, cfg) {
      RegularShape(c, seg, now, cfg);
    } else {
      IrregularShape(c, seg, now, cfg);
    }
  }

  lemma TerminalInput(c: Conn, seg: Seg, now: Time, cfg: Config)
    requires c.state.IsTerminal()
    ensures Input(c, seg, now, cfg) == c
  {}

  lemma ResetShape(c: Conn, seg: Seg, now: Time, cfg: Config)
    requires Inv(c, cfg) && !c.state.IsTerminal() && Input(c, seg, now, cfg).state.Reset?
    ensures Input(c, seg, now, cfg) == Fail(c, Reset)
  {
    hide InWindow, Acceptable, InputAcknowledged, Establish, ReceiveData, SenderInv, FlowInv, HasAck, HasFin, HasSyn,
         HasRst, Fail;
    if c.state.SynSent? {
      if seg.ack == c.snd.sent && c.snd.sent != c.snd.una { SynAckMoves(c, seg, now, cfg); }
    } else if Synchronized(c.state) && seg.ack <= c.snd.sent {
      InputAcknowledgedInv(c, seg, now, cfg);
    }
  }

  lemma SynSentShape(c: Conn, seg: Seg, now: Time, cfg: Config)
    requires Inv(c, cfg) && Settled(c) && c.state.SynSent? && !HasRst(seg.flags)
    ensures Settled(Input(c, seg, now, cfg)) && Stand(c, Input(c, seg, now, cfg))
  {
    hide SenderInv, ReceiverInv, FlowInv, ControlInv, Took, HasSyn, HasAck, HasFin, HasRst, WithoutSyn, Establish,
         ReceiveData;
    SynAckTaken(c, seg, now, cfg);
    if Answers(c, seg) {
      var e := Establish(c, seg, now, cfg);
      var data := seg.(pos := seg.pos + 1, flags := WithoutSyn(seg.flags));
      EstablishedInv(c, seg, now, cfg);
      OpenedControl(c, seg, now, cfg);
      ReceiveDataKeeps(e, data, now, cfg);
    }
  }

  lemma OpenedControl(c: Conn, seg: Seg, now: Time, cfg: Config)
    requires Inv(c, cfg) && c.state.SynSent? && seg.ack == c.snd.sent && c.snd.sent != c.snd.una
    ensures
      var e := Establish(c, seg, now, cfg);
      && e.ctl == c.ctl.(phaseDeadline := None, ackPending := true) && e.snd.closed == c.snd.closed
      && e.snd.flights == []
  {
    hide Acknowledge, Wrap, SenderInv, FlowInv, ReceiverInv;
    SenderStates(c.state, c.snd, cfg);
    var d := c.(rcv := c.rcv.(known := true, irs := seg.pos, next := seg.pos + 1),
                peer := PeerView(seg.window, Wrap(seg.pos), Wrap(seg.ack), MssOrDefault(seg.mss)));
    AcknowledgeSynInv(d, seg, now, cfg);
    AckKeepsClosed(d, seg, now, cfg);
    SynFlightsGone(d, seg, now, cfg);
  }

  lemma AckKeepsClosed(c: Conn, seg: Seg, now: Time, cfg: Config)
    ensures Acknowledge(c, seg, now, cfg).snd.closed == c.snd.closed
  {
    hide SweepFrom, UpdateRto, GrowWindow, InitialCwnd, RestartTimer, AnnouncesWindow, LaterBy, StopPersisting;
  }

  lemma GrowthByMss(g: Congestion, p: PeerView, q: PeerView, bytes: nat, cfg: Config)
    requires p.mss == q.mss
    ensures GrowWindow(g, p, bytes, cfg) == GrowWindow(g, q, bytes, cfg)
    ensures InitialCwnd(g, p, cfg) == InitialCwnd(g, q, cfg)
  {}

  lemma WindowKeepsMss(c: Conn, seg: Seg)
    ensures UpdateWindow(c, seg).peer.mss == c.peer.mss
  {
    hide AnnouncesWindow;
  }

  /** The handshake is over: the congestion window is the initial one. */
  lemma SynProgress(c: Conn, seg: Seg, now: Time, cfg: Config)
    requires cfg.Valid() && SynPhase(c.snd) && seg.ack == c.snd.iss + 1
    ensures Acknowledge(c, seg, now, cfg).cong == c.cong.(cwnd := InitialCwnd(c.cong, c.peer, cfg))
    ensures Acknowledge(c, seg, now, cfg).snd.flights == []
  {
    hide UpdateRto, GrowWindow, InitialCwnd, AnnouncesWindow, SweepFrom;
    var u := UpdateWindow(c, seg);
    var f := u.snd.flights[0];
    assert u.snd.flights == [f];
    SweepSingle(f, seg.ack, now);
    WindowKeepsMss(c, seg);
    GrowthByMss(c.cong, c.peer, u.peer, 0, cfg);
  }

  lemma {:induction false} SweepMarked(w: Sweep, ack: int, now: Time)
    requires Marked(w.rest)
    ensures Marked(SweepFrom(w, ack, now).rest)
    decreases |w.rest|
  {
    if w.rest != [] && w.rest[0].pos < ack && ack >= w.rest[0].End() {
      SweepMarked(Complete(w, now), ack, now);
    }
  }

  lemma WindowMarked(c: Conn, seg: Seg)
    requires Marked(c.snd.flights)
    ensures Marked(UpdateWindow(c, seg).snd.flights)
  {
    hide AnnouncesWindow, Wrap;
  }

  lemma AckMarked(c: Conn, seg: Seg, now: Time, cfg: Config)
    requires Marked(c.snd.flights)
    ensures Marked(Acknowledge(c, seg, now, cfg).snd.flights)
  {
    hide SweepFrom, UpdateRto, GrowWindow, InitialCwnd, LaterBy, UpdateWindow;
    WindowMarked(c, seg);
    var u := UpdateWindow(c, seg);
    SweepMarked(Sweep(u.snd.flights, 0, false, false, false, None, 0), seg.ack, now);
  }

  /** Data leaves the send side alone, and the deadlines unless the peer's FIN leads to TIME-WAIT. */
  lemma ReceiveDataKeeps(c: Conn, seg: Seg, now: Time, cfg: Config)
    ensures
      var d := ReceiveData(c, seg, now, cfg);
      && d.snd == c.snd
      && (d.state != c.state ==> Receives(c.state) && !d.state.IsSynchronizing() && !d.state.IsTerminal())
      && if d.state.TimeWait? && !c.state.TimeWait? then d.ctl.phaseDeadline.Some? && d.ctl.closeDeadline.None?
         else d.ctl == c.ctl.(ackPending := d.ctl.ackPending)
  {
    hide HasFin, AcceptBytes, LaterBy;
  }

  lemma RegularShape(c: Conn, seg: Seg, now: Time, cfg: Config)
    requires Inv(c, cfg) && Settled(c) && Synchronized(c.state) && Regular(c, seg, cfg)
    ensures Settled(Input(c, seg, now, cfg)) && Stand(c, Input(c, seg, now, cfg))
  {
    hide SenderInv, ReceiverInv, FlowInv, ControlInv, Input, LaterBy, InWindow, Acknowledge, ReceiveData, Marked,
         HasSyn, HasAck, HasRst;
    RegularInput(c, seg, now, cfg);
    RegularAck(c, seg, now, cfg);
    var d := if c.state.SynReceived? then c.(state := Established, ctl := c.ctl.(phaseDeadline := None)) else c;
    AckKeepsClosed(d, seg, now, cfg);
    if c.state.SynReceived? { SynFlightsGone(d, seg, now, cfg); } else { AckMarked(d, seg, now, cfg); }
    ReceiveDataKeeps(Acknowledge(d, seg, now, cfg), seg, now, cfg);
  }

  lemma SynFlightsGone(c: Conn, seg: Seg, now: Time, cfg: Config)
    requires cfg.Valid() && SenderInv(SynReceived, c.snd, cfg) && seg.ack == c.snd.sent && c.snd.sent != c.snd.una
    ensures Acknowledge(c, seg, now, cfg).snd.flights == [] && Marked([])
  {
    hide Acknowledge, AllSound, PayloadBytes;
    SynAcknowledgedPhase(c.snd);
    SynProgress(c, seg, now, cfg);
  }

  lemma IrregularShape(c: Conn, seg: Seg, now: Time, cfg: Config)
    requires Inv(c, cfg) && Settled(c) && Synchronized(c.state) && !Regular(c, seg, cfg) && !HasRst(seg.flags)
    ensures Settled(Input(c, seg, now, cfg)) && Stand(c, Input(c, seg, now, cfg))
  {
    hide SenderInv, ReceiverInv, FlowInv, ControlInv, Regular, HasSyn, HasAck, HasFin, HasRst, Acceptable, InWindow,
         InputAcknowledged;
    if RepeatsSyn(c, seg) {
    } else {
      MerelyAnswered(c, seg, now, cfg);
    }
  }

  lemma TransmitSettled(c: Conn, now: Time, cfg: Config, outcome: DeviceOutcome)
    requires Inv(c, cfg) && Settled(c)
    ensures Settled(Transmit(c, now, cfg, outcome)) && Stand(c, Transmit(c, now, cfg, outcome))
  {
    hide SenderInv, ReceiverInv, FlowInv, ControlInv, PlanTransmit, Emission, LaterBy, AfterSubmission, Marked,
         MarkSubmitted;
    if !c.state.IsTerminal() {
      PlanInv(c, now, cfg);
      PlanSettled(c, now, cfg);
      var p := PlanTransmit(c, now, cfg);
      if p.index.Some? { SubmitMarked(p.conn.snd.flights, p.index.value, now, cfg); }
    }
  }

  lemma SubmitMarked(fs: seq<Flight>, index: nat, now: Time, cfg: Config)
    requires index < |fs|
    ensures Marked(fs) ==> Marked(MarkSubmitted(fs, index, now, cfg))
    ensures
      var gs := MarkSubmitted(fs, index, now, cfg);
      gs != [] && gs[0].flags == fs[0].flags
  {}

  lemma PlanMarked(c: Conn, now: Time, cfg: Config)
    requires Marked(c.snd.flights)
    ensures Marked(PlanTransmit(c, now, cfg).conn.snd.flights)
  {
    hide Prepare, Room, HasSyn, HasFin, LaterBy, ChooseFlight, CutFlight, Marked;
    PrepareMarked(c, now, cfg);
    var d := Prepare(c, now, cfg);
    var index := ChooseFlight(d.snd, now);
    if index.Some? && index.value < |d.snd.flights| {
      var persist := d.peer.window == 0 && d.snd.InFlight() == 0;
      var available := if persist then 1 else Room(d.cong.cwnd, d.peer.window, d.snd.InFlight());
      CutMarked(d.snd, index.value, available, persist);
    }
  }

  lemma PrepareMarked(c: Conn, now: Time, cfg: Config)
    requires Marked(c.snd.flights)
    ensures Marked(Prepare(c, now, cfg).snd.flights)
  {
    hide MayPrepare, AfterIdle, Room, SendMss, LaterBy;
  }

  lemma CutMarked(s: Sender, index: nat, available: nat, persist: bool)
    requires Marked(s.flights) && index < |s.flights|
    ensures Marked(CutFlight(s, index, available, persist).flights)
  {}

  lemma PlanControl(c: Conn, now: Time, cfg: Config)
    ensures
      var d := PlanTransmit(c, now, cfg).conn;
      && d.ctl == c.ctl.(probePending := d.ctl.probePending) && d.peer == c.peer && d.rtt == c.rtt
      && d.snd.closed == c.snd.closed
      && (d.state == c.state || (c.snd.closed && d.state.IsFinishing() && c.state.IsOpen()))
  {
    hide Prepare, Admit, ChooseFlight, TcpState.IsFinishing, TcpState.IsOpen;
    PrepareControl(c, now, cfg);
    var d := Prepare(c, now, cfg);
    var index := ChooseFlight(d.snd, now);
    if index.Some? && index.value < |d.snd.flights| {
      AdmitControl(d, index.value, now);
    }
  }

  lemma PrepareControl(c: Conn, now: Time, cfg: Config)
    ensures
      var d := Prepare(c, now, cfg);
      && d.ctl == c.ctl.(probePending := d.ctl.probePending) && d.peer == c.peer && d.rtt == c.rtt
      && d.snd.closed == c.snd.closed
      && (d.state == c.state || (c.snd.closed && d.state.IsFinishing() && c.state.IsOpen()))
  {
    hide Unsent, AfterIdle, Room, SendMss;
  }

  lemma AdmitControl(c: Conn, index: nat, now: Time)
    requires index < |c.snd.flights|
    ensures
      var d := Admit(c, index, now).conn;
      && d.ctl == c.ctl.(probePending := d.ctl.probePending) && d.peer == c.peer && d.rtt == c.rtt
      && d.snd.closed == c.snd.closed && d.state == c.state
      && d.snd.flights != [] && d.snd.flights[0].created == c.snd.flights[0].created
  {
    hide Room, HasSyn, HasFin;
  }

  lemma PlanSettled(c: Conn, now: Time, cfg: Config)
    requires Inv(c, cfg) && Settled(c)
    ensures Settled(PlanTransmit(c, now, cfg).conn) && Stand(c, PlanTransmit(c, now, cfg).conn)
    ensures c.state.SynReceived? ==> PlanTransmit(c, now, cfg).conn == c
  {
    hide SenderInv, ReceiverInv, FlowInv, ControlInv, Room, CutFlight, StartFlight, HasFin, LaterBy, PlanTransmit,
         Marked;
    PlanControl(c, now, cfg);
    if !c.state.IsSynchronizing() { PlanMarked(c, now, cfg); }
    if c.state.SynReceived? { PlanSyn(c, now, cfg); }
  }

  lemma PlanSyn(c: Conn, now: Time, cfg: Config)
    requires Inv(c, cfg) && c.state.IsSynchronizing()
    ensures PlanTransmit(c, now, cfg).conn == c
  {
    hide ReceiverInv, FlowInv, ControlInv, Room, CutFlight, StartFlight, HasFin, LaterBy, AllSound, PayloadBytes;
  }

  lemma ApplySettled(c: Conn, op: Op, cfg: Config)
    requires Inv(c, cfg) && Settled(c)
    ensures Settled(Apply(c, op, cfg)) && Stand(c, Apply(c, op, cfg))
  {
    hide Inv, Input, Transmit, Expired, LaterBy, Place;
    match op
    case OpInput(segment, at) => InputSettled(c, Place(c, segment), at, cfg);
    case OpTransmit(at, outcome) => TransmitSettled(c, at, cfg, outcome);
    case _ =>
  }

  lemma {:induction false} RunSettled(c: Conn, ops: seq<Op>, cfg: Config)
    requires Inv(c, cfg) && Settled(c)
    ensures Settled(Run(c, ops, cfg)) && Stand(c, Run(c, ops, cfg))
    decreases |ops|
  {
    hide Inv, Settled, Apply;
    if ops != [] {
      var d := Apply(c, ops[0], cfg);
      ApplyInv(c, ops[0], cfg);
      ApplySettled(c, ops[0], cfg);
      RunSettled(d, ops[1..], cfg);
      StandOn(c, d, Run(d, ops[1..], cfg));
    }
  }

  lemma ReachableSettled(c: Conn, cfg: Config)
    requires cfg.Valid() && Reachable(c, cfg)
    ensures Settled(c)
  {
    hide Inv, Run;
    if iss: u32, now: Time, ops: seq<Op> :| c == Run(Active(iss, now, cfg), ops, cfg) {
      ActiveInv(iss, now, cfg);
      RunSettled(Active(iss, now, cfg), ops, cfg);
    } else {
      var syn: Segment, iss: u32, now: Time, ops: seq<Op> :| c == Run(Passive(syn, iss, now, cfg), ops, cfg);
      PassiveInv(syn, iss, now, cfg);
      RunSettled(Passive(syn, iss, now, cfg), ops, cfg);
    }
  }

  // ---------------------------------------------------------------- what a tick decides

  predicate Passed(deadline: Option<Time>, now: Time) { deadline.Some? && deadline.value <= now }

  /** Too long unacknowledged, or due again after the last submission allowed. */
  predicate Hopeless(f: Flight, now: Time, cfg: Config) {
    || LaterBy(f.created, cfg.sendTimeout) <= now
    || (!f.persist && f.transmissions > cfg.maxRetransmits
        && (f.lastSent.Some? ==> LaterBy(f.lastSent.value, f.rto) <= now))
  }

  /** TIME-WAIT ends exactly at its deadline; any other connection times out exactly if a deadline has come or its
      oldest flight is hopeless. Nothing else happens. */
  lemma TickDecides(c: Conn, now: Time, cfg: Config)
    ensures
      var d := Tick(c, now, cfg);
      var late := Passed(c.ctl.phaseDeadline, now) || Passed(c.ctl.closeDeadline, now)
                  || (c.snd.flights != [] && Hopeless(c.snd.flights[0], now, cfg));
      if c.state.IsTerminal() then d == c
      else if c.state.TimeWait? then (if Passed(c.ctl.phaseDeadline, now) then d.state.Closed? else d == c)
      else if late then d.state.TimedOut? else d == c
  {
    hide LaterBy;
  }

  /** A connection that goes on after a tick is before its deadlines, and its oldest flight is young enough and
      is persisting, not due, or has submissions left. */
  lemma TickLeaves(c: Conn, now: Time, cfg: Config)
    requires Inv(c, cfg) && Settled(c) && !Tick(c, now, cfg).state.IsTerminal()
    ensures Tick(c, now, cfg) == c
    ensures c.ctl.phaseDeadline.Some? ==> now < c.ctl.phaseDeadline.value
    ensures c.ctl.closeDeadline.Some? ==> now < c.ctl.closeDeadline.value
    ensures c.snd.flights != [] ==>
      var f := c.snd.flights[0];
      && now < LaterBy(f.created, cfg.sendTimeout)
      && (f.persist || !f.Due(now) || f.transmissions <= cfg.maxRetransmits)
      && (!f.persist && f.Due(now) && cfg.maxRetransmits < 0xffff_ffff ==> |f.sends| <= cfg.maxRetransmits)
  {
    hide DataRun, PayloadBytes, ReceiverInv, FlowInv, LaterBy, SynFlight, FinFlight;
    TickDecides(c, now, cfg);
    if c.snd.flights != [] { assert SoundFlight(c.snd.flights[0], cfg); }
  }

  // ---------------------------------------------------------------- bounded waiting, over every run

  /** However a run goes on, a handshake that is still open after a tick is younger than its timeout. */
  lemma HandshakeBounded(c: Conn, start: Time, ops: seq<Op>, at: Time, cfg: Config)
    requires cfg.Valid()
    requires
      || (exists iss: u32 :: c == Active(iss, start, cfg))
      || (exists syn: Segment, iss: u32 :: c == Passive(syn, iss, start, cfg))
    ensures Tick(Run(c, ops, cfg), at, cfg).state.IsSynchronizing() ==> at < LaterBy(start, cfg.handshakeTimeout)
  {
    hide Inv, Run, Tick, LaterBy, Settled;
    if iss: u32 :| c == Active(iss, start, cfg) {
      ActiveInv(iss, start, cfg);
      OpenSettled(c, start, cfg);
    } else {
      var syn: Segment, iss: u32 :| c == Passive(syn, iss, start, cfg);
      PassiveInv(syn, iss, start, cfg);
      OpenSettled(c, start, cfg);
    }
    RunInv(c, ops, cfg);
    RunSettled(c, ops, cfg);
    if Tick(Run(c, ops, cfg), at, cfg).state.IsSynchronizing() { TickLeaves(Run(c, ops, cfg), at, cfg); }
  }

  lemma OpenSettled(c: Conn, start: Time, cfg: Config)
    requires
      || (exists iss: u32 :: c == Active(iss, start, cfg))
      || (exists syn: Segment, iss: u32 :: c == Passive(syn, iss, start, cfg))
    ensures Settled(c) && c.ctl.phaseDeadline == Some(LaterBy(start, cfg.handshakeTimeout))
  {
    hide LaterBy;
  }

  /** However a run goes on after the close call, a connection that is neither done nor in TIME-WAIT after a tick
      is within the close timeout. */
  lemma CloseBounded(c: Conn, start: Time, ops: seq<Op>, at: Time, cfg: Config)
    requires Inv(c, cfg) && Settled(c) && c.state.IsOpen() && !c.snd.closed
    ensures
      var d := Tick(Run(Close(c, start, cfg), ops, cfg), at, cfg);
      !d.state.IsTerminal() && !d.state.TimeWait? ==> at < LaterBy(start, cfg.closeTimeout)
  {
    hide Inv, Run, Tick, LaterBy;
    var e := Close(c, start, cfg);
    CloseInv(c, start, cfg);
    RunInv(e, ops, cfg);
    RunSettled(e, ops, cfg);
    var d := Run(e, ops, cfg);
    if !Tick(d, at, cfg).state.IsTerminal() { TickLeaves(d, at, cfg); }
  }

  /** Until the acknowledgment moves, the oldest flight stays and keeps the time of its creation. */
  predicate Stalled(c: Conn, d: Conn) {
    c.snd.flights != [] && d.snd.una == c.snd.una && !d.state.IsAborted() ==>
      d.snd.flights != [] && d.snd.flights[0].created == c.snd.flights[0].created
  }

  lemma InputStalled(c: Conn, seg: Seg, now: Time, cfg: Config)
    requires Inv(c, cfg)
    ensures Stalled(c, Input(c, seg, now, cfg))
  {
    hide SenderInv, ReceiverInv, FlowInv, ControlInv, Input, LaterBy, Regular, Answers, InWindow, HasSyn, HasRst,
         HasAck, HasFin, Took, Receives;
    if c.state.IsTerminal() {
      TerminalInput(c, seg, now, cfg);
    } else if c.state.TimeWait? {
      TimeWaitKept(c, seg, now, cfg);
    } else if HasRst(seg.flags) {
      ResetExactly(c, seg, now, cfg);
    } else if c.state.SynSent? {
      SynAckTaken(c, seg, now, cfg);
      AnswersMore(c, seg);
    } else if Regular(c, seg, cfg) {
      RegularStalled(c, seg, now, cfg);
    } else if RepeatsSyn(c, seg) {
      RepeatShape(c, seg, now, cfg);
    } else {
      RepeatsNot(c, seg);
      MerelyAnswered(c, seg, now, cfg);
    }
  }

  lemma AnswersMore(c: Conn, seg: Seg)
    ensures Answers(c, seg) ==> seg.ack != c.snd.una
  {}

  lemma RepeatsNot(c: Conn, seg: Seg)
    requires !RepeatsSyn(c, seg) && !HasRst(seg.flags)
    ensures !(c.state.SynReceived? && HasSyn(seg.flags) && !HasAck(seg.flags) && seg.pos + 1 == c.rcv.next)
  {}

  lemma RepeatShape(c: Conn, seg: Seg, now: Time, cfg: Config)
    requires RepeatsSyn(c, seg)
    ensures Input(c, seg, now, cfg) == ResendSyn(c)
  {
    hide ResendSyn, HasSyn, HasAck, HasRst;
  }

  lemma RegularStalled(c: Conn, seg: Seg, now: Time, cfg: Config)
    requires Inv(c, cfg) && Synchronized(c.state) && Regular(c, seg, cfg)
    ensures Stalled(c, Input(c, seg, now, cfg))
  {
    hide SenderInv, ReceiverInv, FlowInv, ControlInv, Input, LaterBy, InWindow, HasSyn, HasRst, HasAck, Acknowledge,
         ReceiveData;
    RegularInput(c, seg, now, cfg);
    RegularAck(c, seg, now, cfg);
    SenderMarks(c.state, c.snd, cfg);
    var d := if c.state.SynReceived? then c.(state := Established, ctl := c.ctl.(phaseDeadline := None)) else c;
    ReceiveDataKeeps(Acknowledge(d, seg, now, cfg), seg, now, cfg);
    if seg.ack <= c.snd.una && c.snd.flights != [] { AckStalled(d, seg, now, cfg); }
  }

  lemma AckStalled(c: Conn, seg: Seg, now: Time, cfg: Config)
    requires seg.ack <= c.snd.una && c.snd.flights != []
    ensures
      var fs := Acknowledge(c, seg, now, cfg).snd.flights;
      fs != [] && fs[0].created == c.snd.flights[0].created
  {
    hide AnnouncesWindow;
  }

  lemma TransmitStalled(c: Conn, now: Time, cfg: Config, outcome: DeviceOutcome)
    requires Inv(c, cfg)
    ensures Stalled(c, Transmit(c, now, cfg, outcome))
  {
    hide SenderInv, ReceiverInv, FlowInv, ControlInv, PlanTransmit, Emission, LaterBy, AfterSubmission, Resubmitted;
    if !c.state.IsTerminal() && c.snd.flights != [] {
      PlanInv(c, now, cfg);
      PlanStalled(c, now, cfg);
      var p := PlanTransmit(c, now, cfg);
      if p.index.Some? { MarkStalled(p.conn.snd.flights, p.index.value, now, cfg); }
    }
  }

  lemma MarkStalled(fs: seq<Flight>, index: nat, now: Time, cfg: Config)
    requires index < |fs|
    ensures MarkSubmitted(fs, index, now, cfg) != [] && MarkSubmitted(fs, index, now, cfg)[0].created == fs[0].created
  {}

  lemma PlanStalled(c: Conn, now: Time, cfg: Config)
    requires c.snd.flights != []
    ensures
      var fs := PlanTransmit(c, now, cfg).conn.snd.flights;
      fs != [] && fs[0].created == c.snd.flights[0].created
  {
    hide Prepare, Admit, ChooseFlight;
    PrepareAppends(c, now, cfg);
    var d := Prepare(c, now, cfg);
    var index := ChooseFlight(d.snd, now);
    if index.Some? && index.value < |d.snd.flights| {
      AdmitControl(d, index.value, now);
    }
  }

  /** Preparing appends at most one flight and otherwise keeps flights and windows. */
  lemma PrepareAppends(c: Conn, now: Time, cfg: Config)
    requires c.snd.flights != []
    ensures
      var d := Prepare(c, now, cfg);
      && d.snd.flights != [] && d.snd.flights[0] == c.snd.flights[0] && d.cong == c.cong && d.peer == c.peer
      && d.rtt == c.rtt && d.snd.una == c.snd.una && d.snd.sent == c.snd.sent
  {
    hide MayPrepare, Room, SendMss, LaterBy;
  }

  lemma ApplyStalled(c: Conn, op: Op, cfg: Config)
    requires Inv(c, cfg)
    ensures Stalled(c, Apply(c, op, cfg))
  {
    hide Inv, Input, Transmit, Expired, LaterBy, Place, SendBuffered;
    match op
    case OpInput(segment, at) => InputStalled(c, Place(c, segment), at, cfg);
    case OpTransmit(at, outcome) => TransmitStalled(c, at, cfg, outcome);
    case OpTick(at) => TickDecides(c, at, cfg);
    case _ =>
  }

  lemma {:induction false} RunStalled(c: Conn, ops: seq<Op>, cfg: Config)
    requires Inv(c, cfg)
    ensures Stalled(c, Run(c, ops, cfg))
    decreases |ops|
  {
    hide Inv, Apply;
    if ops != [] {
      var d := Apply(c, ops[0], cfg);
      ApplyInv(c, ops[0], cfg);
      ApplyStalled(c, ops[0], cfg);
      RunInv(d, ops[1..], cfg);
      RunStalled(d, ops[1..], cfg);
    }
  }

  /** However a run goes on, as long as nothing more is acknowledged, a connection that goes on after a tick has
      had its oldest flight for less than the send timeout. */
  lemma SendBounded(c: Conn, ops: seq<Op>, at: Time, cfg: Config)
    requires Inv(c, cfg) && Settled(c) && c.snd.flights != [] && Run(c, ops, cfg).snd.una == c.snd.una
    ensures !Tick(Run(c, ops, cfg), at, cfg).state.IsTerminal() ==>
              at < LaterBy(c.snd.flights[0].created, cfg.sendTimeout)
  {
    hide Inv, Run, Tick, LaterBy, Settled;
    RunInv(c, ops, cfg);
    RunSettled(c, ops, cfg);
    RunStalled(c, ops, cfg);
    var d := Run(c, ops, cfg);
    if !Tick(d, at, cfg).state.IsTerminal() { TickLeaves(d, at, cfg); }
  }

  /** The announced deadline is no earlier than needed: when it comes, a deadline has passed, the oldest flight is
      due or hopeless, or the closed window is to be probed; without one, nothing is waiting for time to pass. */
  lemma DeadlineNeeded(c: Conn, cfg: Config)
    ensures
      var at := NextDeadline(c, cfg);
      if at.Some? then
        && !c.state.IsTerminal()
        && (|| Passed(c.ctl.phaseDeadline, at.value) || Passed(c.ctl.closeDeadline, at.value)
            || (c.snd.flights != [] && (c.snd.flights[0].Due(at.value) || Hopeless(c.snd.flights[0], at.value, cfg)))
            || (c.snd.closed && c.state.IsOpen() && c.snd.flights == [] && c.peer.window == 0
                && c.ctl.windowProbeAt <= at.value))
      else
        c.state.IsTerminal()
        || (c.ctl.phaseDeadline.None? && c.ctl.closeDeadline.None? && c.snd.flights == []
            && !(c.snd.closed && c.state.IsOpen() && c.peer.window == 0))
  {
    hide LaterBy;
  }
}
