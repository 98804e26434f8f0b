/**
 Theorems about one connection, over every run of operations and every arriving segment.
 */
module TcpProperties {
  import opened Prelude
  import opened SequenceNumbers
  import opened TcpSegment
  import opened TcpModel
  import opened TcpFlights
  import opened TcpInvariants

  // ---------------------------------------------------------------- runs

  /** Everything that can happen to a connection: calls of its owner, time, segments, the device. */
  datatype Op =
    | OpWrite(bytes: seq<byte>)
    | OpRead(room: nat)
    | OpClose(at: Time)
    | OpAbort
    | OpFailLocally
    | OpTick(at: Time)
    | OpInput(segment: Segment, at: Time)
    | OpTransmit(at: Time, outcome: DeviceOutcome)

  function Apply(c: Conn, op: Op, cfg: Config): Conn {
    match op
    case OpWrite(bytes) => Write(c, bytes, cfg)
    case OpRead(room) => Read(c, room)
    case OpClose(at) => Close(c, at, cfg)
    case OpAbort => Fail(c, Reset)
    case OpFailLocally => FailLocally(c)
    case OpTick(at) => Tick(c, at, cfg)
    case OpInput(segment, at) => Input(c, Place(c, segment), at, cfg)
    case OpTransmit(at, outcome) => Transmit(c, at, cfg, outcome)
  }

  function Run(c: Conn, ops: seq<Op>, cfg: Config): Conn
    decreases |ops|
  {
    if ops == [] then c else Run(Apply(c, ops[0], cfg), ops[1..], cfg)
  }

  lemma ApplyInv(c: Conn, op: Op, cfg: Config)
    requires Inv(c, cfg)
    ensures Inv(Apply(c, op, cfg), cfg) && Extends(c, Apply(c, op, cfg))
  {
    hide Inv, Extends, Write, Read, Close, Fail, FailLocally, Tick, Input, Transmit, Place;
    match op
    case OpWrite(bytes) => WriteInv(c, bytes, cfg);
    case OpRead(room) => ReadInv(c, room, cfg);
    case OpClose(at) => CloseInv(c, at, cfg);
    case OpAbort => FailInv(c, Reset, cfg);
    case OpFailLocally => FailInv(c, Failed, cfg);
    case OpTick(at) => TickInv(c, at, cfg);
    case OpInput(segment, at) => InputInv(c, Place(c, segment), at, cfg);
    case OpTransmit(at, outcome) => TransmitInv(c, at, cfg, outcome);
  }

  /** The invariant holds after every run, and no run takes back what an earlier state had. */
  lemma {:induction false} RunInv(c: Conn, ops: seq<Op>, cfg: Config)
    requires Inv(c, cfg)
    ensures Inv(Run(c, ops, cfg), cfg) && Extends(c, Run(c, ops, cfg))
    decreases |ops|
  {
    hide Inv, Extends, Apply;
    if ops == [] {
      ExtendsReflexive(c);
    } else {
      ApplyInv(c, ops[0], cfg);
      var d := Apply(c, ops[0], cfg);
      RunInv(d, ops[1..], cfg);
      ExtendsTransitive(c, d, Run(d, ops[1..], cfg));
    }
  }

  /** A connection that some run reaches from either way of opening it. */
  ghost predicate Reachable(c: Conn, cfg: Config) {
    || (exists iss: u32, now: Time, ops: seq<Op> :: c == Run(Active(iss, now, cfg), ops, cfg))
    || (exists syn: Segment, iss: u32, now: Time, ops: seq<Op> :: c == Run(Passive(syn, iss, now, cfg), ops, cfg))
  }

  lemma ReachableInv(c: Conn, cfg: Config)
    requires cfg.Valid() && Reachable(c, cfg)
    ensures Inv(c, cfg)
  {
    hide Inv, Run;
    if iss: u32, now: Time, ops: seq<Op> :| c == Run(Active(iss, now, cfg), ops, cfg) {
      ActiveInv(iss, now, cfg);
      RunInv(Active(iss, now, cfg), ops, cfg);
    } else {
      var syn: Segment, iss: u32, now: Time, ops: seq<Op> :| c == Run(Passive(syn, iss, now, cfg), ops, cfg);
      PassiveInv(syn, iss, now, cfg);
      RunInv(Passive(syn, iss, now, cfg), ops, cfg);
    }
  }

  /** Bounds that hold in every reachable state: windows, timers of the connection and of every
      flight, buffers, and an outstanding span on which 32-bit comparisons are exact. */
  lemma ReachableBounds(c: Conn, cfg: Config)
    requires cfg.Valid() && Reachable(c, cfg)
    ensures 1 <= c.cong.cwnd <= cfg.maxCwnd && cfg.initialRto <= c.rtt.rto <= cfg.maxRto
    ensures forall i :: 0 <= i < |c.snd.flights| ==> cfg.initialRto <= c.snd.flights[i].rto <= cfg.maxRto
    ensures |c.rcv.buffer| <= cfg.receiveCapacity && SendBuffered(c.snd) <= cfg.sendCapacity
    ensures 0 <= c.snd.next - c.snd.una <= cfg.sendCapacity + 1 < 0x8000_0000
  {
    hide Reachable, DataRun, PayloadBytes, SynPhase, OpenPhase, FinPhase;
    ReachableInv(c, cfg);
    SenderMarks(c.state, c.snd, cfg);
    assert forall i :: 0 <= i < |c.snd.flights| ==> SoundFlight(c.snd.flights[i], cfg);
  }

  // ---------------------------------------------------------------- the byte stream

  function FlightBytes(fs: seq<Flight>): seq<byte> {
    if fs == [] then [] else fs[0].payload + FlightBytes(fs[1..])
  }

  /** Bytes below the oldest unacknowledged position. */
  function AckedBytes(s: Sender): seq<byte>
    requires s.iss <= s.una
  {
    s.written[..Min(Max(s.una - s.iss - 1, 0), |s.written|)]
  }

  lemma {:induction false} RunBytes(fs: seq<Flight>, iss: int, written: seq<byte>, lo: int, hi: int)
    requires DataRun(fs, iss, written, lo, hi) && iss + 1 <= lo && lo - iss - 1 <= |written|
    ensures lo <= hi && hi - iss - 1 <= |written|
    ensures FlightBytes(fs) == written[lo - iss - 1..hi - iss - 1]
  {
    if fs != [] {
      var mid := lo + |fs[0].payload|;
      assert fs[0].End() == mid && fs[0].payload == written[lo - iss - 1..mid - iss - 1];
      RunBytes(fs[1..], iss, written, mid, hi);
      hide DataRun, SequenceLength;
      SliceJoin(written, lo - iss - 1, mid - iss - 1, hi - iss - 1);
    }
  }

  lemma SliceJoin(w: seq<byte>, i: nat, j: nat, k: nat)
    requires i <= j <= k <= |w|
    ensures w[i..j] + w[j..k] == w[i..k]
  {}

  lemma ThreeSlices(w: seq<byte>, i: nat, k: nat)
    requires i <= k <= |w|
    ensures w[..i] + w[i..k] + w[k..] == w
  {}

  /** Acknowledged, in flight and queued bytes together are exactly what the application wrote. */
  lemma StreamConserved(c: Conn, cfg: Config)
    requires Inv(c, cfg) && !c.state.IsAborted()
    ensures c.snd.iss <= c.snd.una
    ensures AckedBytes(c.snd) + FlightBytes(c.snd.flights) + c.snd.queued == c.snd.written
  {
    hide DataRun, AllSound, PayloadBytes, ReceiverInv, FlowInv, ControlInv;
    SenderMarks(c.state, c.snd, cfg);
    if c.state.IsOpen() {
      OpenConserved(c.snd);
    } else {
      hide OpenPhase, AbortedPhase;
      QuietFlights(c.snd.flights);
    }
  }

  lemma OpenConserved(s: Sender)
    requires OpenPhase(s)
    ensures AckedBytes(s) + FlightBytes(s.flights) + s.queued == s.written
  {
    hide DataRun, SubmittedEnd, FlightBytes;
    RunBytes(s.flights, s.iss, s.written, s.una, s.next);
    ThreeSlices(s.written, s.una - s.iss - 1, s.next - s.iss - 1);
  }

  lemma QuietFlights(fs: seq<Flight>)
    ensures |fs| == 0 || (|fs| == 1 && fs[0].payload == []) ==> FlightBytes(fs) == []
  {
    if |fs| == 1 { assert fs[1..] == []; }
  }

  /** At most one flight is waiting for its first submission, and it is the newest. */
  lemma UnsentIsNewest(c: Conn, i: nat, cfg: Config)
    requires Inv(c, cfg) && i < |c.snd.flights|
    ensures c.snd.flights[i].transmissions == 0 ==> i == |c.snd.flights| - 1 && c.snd.sent == c.snd.flights[i].pos
    ensures !Unsent(c.snd) ==> c.snd.sent == c.snd.next
  {
    SentMarkHolds(c.state, c.snd, cfg);
    if c.snd.flights[i].transmissions == 0 {
      OnlyLastUnsent(c.state, c.snd, i, cfg);
    }
    hide SenderInv;
  }

  // ---------------------------------------------------------------- emitted segments

  /** A segment the connection may put on the wire: it carries what was written at its position. */
  predicate Genuine(c: Conn, seg: Seg) {
    && !HasRst(seg.flags)
    && c.snd.iss - 1 <= seg.pos
    && seg.pos + SequenceLength(seg.flags, seg.payload) <= c.snd.sent
    && (seg.payload != [] ==>
          !HasSyn(seg.flags) && !HasFin(seg.flags) && Holds(seg.payload, c.snd.iss, c.snd.written, seg.pos))
    && (HasSyn(seg.flags) ==> seg.pos == c.snd.iss && !HasFin(seg.flags))
    && (HasFin(seg.flags) ==> seg.pos == c.snd.iss + 1 + |c.snd.written| && c.snd.closed)
    && (HasAck(seg.flags) ==> c.rcv.known && c.rcv.irs < seg.ack <= c.rcv.next)
  }

  /** Later operations never turn a genuine segment into a wrong one. */
  lemma GenuineForever(c: Conn, d: Conn, seg: Seg)
    requires Genuine(c, seg) && Extends(c, d)
    ensures Genuine(d, seg)
  {
    if seg.payload != [] {
      var more := d.snd.written[|c.snd.written|..];
      assert d.snd.written == c.snd.written + more;
      HoldsAfterWrite(seg.payload, c.snd.iss, c.snd.written, more, seg.pos);
    }
    hide SequenceLength, Holds;
  }

  /** Two genuine segments never disagree about the byte at a position. */
  lemma GenuineAgree(c: Conn, a: Seg, b: Seg, x: int)
    requires Genuine(c, a) && Genuine(c, b)
    requires a.pos <= x < a.pos + |a.payload| && b.pos <= x < b.pos + |b.payload|
    ensures a.payload[x - a.pos] == b.payload[x - b.pos]
  {
    hide SequenceLength, HasSyn, HasFin, HasRst, HasAck;
    var w, k := c.snd.written, x - c.snd.iss - 1;
    SliceAt(w, a.payload, a.pos - c.snd.iss - 1, x - a.pos);
    SliceAt(w, b.payload, b.pos - c.snd.iss - 1, x - b.pos);
  }

  lemma SliceAt(w: seq<byte>, piece: seq<byte>, at: nat, i: nat)
    requires at + |piece| <= |w| && piece == w[at..at + |piece|] && i < |piece|
    ensures piece[i] == w[at + i]
  {}

  lemma FlightGenuine(c: Conn, index: nat, now: Time, cfg: Config)
    requires Inv(c, cfg) && index < |c.snd.flights|
    ensures
      var f := c.snd.flights[index];
      var d := Submitted(c, index, now, cfg);
      Genuine(d, Seg(f.pos, c.rcv.next, f.flags, 0, None, f.payload))
  {
    hide SenderInv, ReceiverInv, FlowInv, Genuine, Submitted;
    if c.state.IsOpen() {
      DataGenuine(c, index, now, cfg);
    } else {
      SignalGenuine(c, index, now, cfg);
    }
  }

  lemma DataGenuine(c: Conn, index: nat, now: Time, cfg: Config)
    requires Inv(c, cfg) && index < |c.snd.flights| && c.state.IsOpen()
    ensures
      var f := c.snd.flights[index];
      Genuine(Submitted(c, index, now, cfg), Seg(f.pos, c.rcv.next, f.flags, 0, None, f.payload))
  {
    hide DataRun, AllSound, PayloadBytes, MarkSubmitted, AfterSubmission, Resubmitted, FlowInv, SendBuffered,
         SubmittedEnd;
    SubmittedSender(c, index, now, cfg);
    RunMember(c.snd.flights, c.snd.iss, c.snd.written, c.snd.una, c.snd.next, index);
  }

  lemma SignalGenuine(c: Conn, index: nat, now: Time, cfg: Config)
    requires Inv(c, cfg) && index < |c.snd.flights| && !c.state.IsOpen()
    ensures
      var f := c.snd.flights[index];
      Genuine(Submitted(c, index, now, cfg), Seg(f.pos, c.rcv.next, f.flags, 0, None, f.payload))
  {
    hide OpenPhase, AllSound, PayloadBytes, MarkSubmitted, AfterSubmission, Resubmitted, FlowInv, SendBuffered,
         SubmittedEnd;
    SubmittedSender(c, index, now, cfg);
  }

  /** Whatever a transmission puts on the wire is genuine afterwards: a retransmission carries the
      bytes that were first sent at its position. */
  lemma EmissionGenuine(c: Conn, now: Time, cfg: Config)
    requires Inv(c, cfg) && !c.state.IsTerminal() && Emits(PlanTransmit(c, now, cfg))
    ensures ValidPlan(PlanTransmit(c, now, cfg))
    ensures Genuine(Transmit(c, now, cfg, Accepted), Emission(PlanTransmit(c, now, cfg), cfg))
  {
    hide PlanTransmit, SenderInv, ReceiverInv, FlowInv, ControlInv, Submitted, Genuine, Emission, Commit;
    PlanInv(c, now, cfg);
    var p := PlanTransmit(c, now, cfg);
    if p.index.Some? {
      FlightGenuine(p.conn, p.index.value, now, cfg);
      CommitGenuine(p, now, cfg);
    } else {
      SignalAlone(p, now, cfg);
    }
  }

  /** Neither the window nor the MSS of an emission matters, nor do the flags that follow it. */
  lemma CommitGenuine(p: Plan, now: Time, cfg: Config)
    requires p.index.Some? && ValidPlan(p)
    requires
      var f := p.conn.snd.flights[p.index.value];
      Genuine(Submitted(p.conn, p.index.value, now, cfg), Seg(f.pos, p.conn.rcv.next, f.flags, 0, None, f.payload))
    ensures Genuine(Commit(p, now, cfg), Emission(p, cfg))
  {
    hide Submitted, HasSyn, HasFin, HasAck, HasRst, Holds, AdvertisedWindow, LaterBy;
  }

  /** A bare acknowledgment or probe. */
  lemma SignalAlone(p: Plan, now: Time, cfg: Config)
    requires Inv(p.conn, cfg) && !p.conn.state.IsAborted() && p.index.None? && Emits(p)
    ensures Genuine(Commit(p, now, cfg), Emission(p, cfg))
  {
    SenderMarks(p.conn.state, p.conn.snd, cfg);
    QuietWhileSynSent(p, cfg);
    hide SenderInv, FlowInv, ControlInv, AdvertisedWindow, LaterBy;
  }

  lemma QuietWhileSynSent(p: Plan, cfg: Config)
    requires Inv(p.conn, cfg) && !p.conn.state.IsAborted() && p.index.None? && Emits(p)
    ensures p.conn.rcv.known
  {
    hide SenderInv;
  }

  // ---------------------------------------------------------------- flow control

  lemma AdmitFits(c: Conn, index: nat, now: Time, cfg: Config)
    requires Inv(c, cfg) && ChooseFlight(c.snd, now) == Some(index) && index < |c.snd.flights|
    requires c.snd.flights[index].transmissions == 0 && !HasSyn(c.snd.flights[index].flags)
    ensures
      var p := Admit(c, index, now);
      p.index.Some? && p.index.value < |p.conn.snd.flights| ==>
        var f := p.conn.snd.flights[p.index.value];
        var s := p.conn.snd;
        && s.una == c.snd.una && s.sent == c.snd.sent && p.conn.cong == c.cong && p.conn.peer == c.peer
        && f.transmissions == 0 && f.pos == s.sent
        && (|| f.End() - s.una <= Min(c.cong.cwnd, c.peer.window)
            || (c.peer.window == 0 && s.sent == s.una && f.End() == s.sent + 1 && |f.payload| == 1))
  {
    hide SenderInv, ReceiverInv, FlowInv, ControlInv, CutFlight;
    SynchronizingFlags(c, index, cfg);
    OnlyLastUnsent(c.state, c.snd, index, cfg);
    var persist := c.peer.window == 0 && c.snd.InFlight() == 0;
    var available := if persist then 1 else Room(c.cong.cwnd, c.peer.window, c.snd.InFlight());
    if available > 0 {
      CutFlightInv(c.state, c.snd, available, persist, cfg);
      var u := CutFlight(c.snd, index, available, persist);
      SentMarkHolds(c.state, u, cfg);
      UnsentLength(c.state, u, cfg);
      SenderMarks(c.state, c.snd, cfg);
    }
  }

  /** A flight waiting for its first submission is either data or a bare FIN. */
  lemma UnsentLength(state: TcpState, s: Sender, cfg: Config)
    requires SenderInv(state, s, cfg) && Unsent(s) && !state.IsSynchronizing()
    ensures
      var f := Last(s.flights);
      if HasFin(f.flags) then f.End() == f.pos + 1 && f.payload == []
      else f.End() == f.pos + |f.payload| && f.payload != []
  {
    if state.IsOpen() {
      RunLength(s.flights, s.iss, s.written, s.una, s.next);
    }
    hide DataRun, AllSound, PayloadBytes;
  }

  /** After bytes leave for the first time, what is in flight fits both windows; the only exception
      is the single-byte probe of a closed window with nothing in flight. */
  lemma FirstSubmissionFits(c: Conn, now: Time, cfg: Config)
    requires Inv(c, cfg) && !c.state.IsTerminal()
    ensures
      var p := PlanTransmit(c, now, cfg);
      var d := Transmit(c, now, cfg, Accepted);
      ValidPlan(p) &&
      (p.index.Some? && p.conn.snd.flights[p.index.value].transmissions == 0
       && !HasSyn(p.conn.snd.flights[p.index.value].flags) ==>
         || d.snd.InFlight() <= Min(d.cong.cwnd, d.peer.window)
         || (d.peer.window == 0 && p.conn.snd.InFlight() == 0 && d.snd.InFlight() == 1
             && |p.conn.snd.flights[p.index.value].payload| == 1))
  {
    hide Prepare, SenderInv, ReceiverInv, FlowInv, ControlInv, HasSyn, HasFin, CutFlight, MarkSubmitted;
    PlanInv(c, now, cfg);
    PrepareInv(c, now, cfg);
    var e := Prepare(c, now, cfg);
    var index := ChooseFlight(e.snd, now);
    if index.Some? {
      AdmitInv(e, index.value, now, cfg);
      if e.snd.flights[index.value].transmissions == 0 && !HasSyn(e.snd.flights[index.value].flags) {
        AdmitFits(e, index.value, now, cfg);
      }
    }
  }

  /** The highest position the peer may use: what it has been told it may send up to. */
  function RightEdge(r: Receiver, cfg: Config): int { r.next + AdvertisedWindow(r, cfg) }

  lemma AcceptEdge(r: Receiver, seg: Seg, window: nat, cfg: Config)
    requires seg.pos <= r.next <= seg.pos + |seg.payload| && window == AdvertisedWindow(r, cfg)
    ensures RightEdge(r, cfg) <= RightEdge(AcceptBytes(r, seg, window), cfg)
  {}

  lemma ReceiveDataEdge(c: Conn, seg: Seg, now: Time, cfg: Config)
    ensures RightEdge(c.rcv, cfg) <= RightEdge(ReceiveData(c, seg, now, cfg).rcv, cfg)
  {
    hide HasFin, AcceptBytes;
    if TakesData(c, seg, cfg) {
      AcceptEdge(c.rcv, seg, AdvertisedWindow(c.rcv, cfg), cfg);
    }
  }

  /** The right edge of the receive window never moves left (section 3.8.6 of RFC 9293). */
  lemma RightEdgeNeverShrinks(c: Conn, op: Op, cfg: Config)
    requires Inv(c, cfg) && c.rcv.known
    ensures RightEdge(c.rcv, cfg) <= RightEdge(Apply(c, op, cfg).rcv, cfg)
    ensures |Apply(c, op, cfg).rcv.buffer| <= cfg.receiveCapacity
  {
    ApplyInv(c, op, cfg);
    hide SenderInv, FlowInv, ControlInv;
    match op
    case OpInput(segment, at) =>
      hide ReceiverInv, Extends, Place;
      InputEdge(c, Place(c, segment), at, cfg);
    case OpTransmit(at, outcome) =>
      hide Transmit, ReceiverInv;
      TransmitInv(c, at, cfg, outcome);
    case OpTick(at) => hide Expired;
    case _ =>
  }

  /** Nor does any run move it left, once the peer's numbers are known. */
  lemma {:induction false} RightEdgeRun(c: Conn, ops: seq<Op>, cfg: Config)
    requires Inv(c, cfg) && c.rcv.known
    ensures RightEdge(c.rcv, cfg) <= RightEdge(Run(c, ops, cfg).rcv, cfg)
    ensures |Run(c, ops, cfg).rcv.buffer| <= cfg.receiveCapacity
    decreases |ops|
  {
    if ops == [] {
      hide SenderInv, FlowInv, ControlInv;
    } else {
      hide Inv, Apply, RightEdge;
      ApplyInv(c, ops[0], cfg);
      RightEdgeNeverShrinks(c, ops[0], cfg);
      RightEdgeRun(Apply(c, ops[0], cfg), ops[1..], cfg);
    }
  }

  lemma InputEdge(c: Conn, seg: Seg, now: Time, cfg: Config)
    requires Inv(c, cfg) && c.rcv.known
    ensures RightEdge(c.rcv, cfg) <= RightEdge(Input(c, seg, now, cfg).rcv, cfg)
  {
    hide Acknowledge, ReceiveData, HasSyn, HasAck, HasFin, HasRst, Acceptable;
    KnownState(c, cfg);
    hide SenderInv, ReceiverInv, FlowInv, ControlInv;
    if !c.state.IsTerminal() && !c.state.TimeWait? && Acceptable(c.rcv, seg, cfg) && seg.ack <= c.snd.sent {
      var d := if c.state.SynReceived? then c.(state := Established, ctl := c.ctl.(phaseDeadline := None)) else c;
      if c.state.SynReceived? {
        if seg.ack == c.snd.sent && c.snd.sent != c.snd.una { SynAcknowledgedInv(c, seg, now, cfg); }
      } else {
        AcknowledgeInv(c, seg, now, cfg);
      }
      ReceiveDataEdge(Acknowledge(d, seg, now, cfg), seg, now, cfg);
    }
  }

  lemma KnownState(c: Conn, cfg: Config)
    requires Inv(c, cfg) && c.rcv.known
    ensures !c.state.SynSent?
  {
    hide SenderInv;
  }

  // ---------------------------------------------------------------- acknowledgment and closing

  /** The oldest unacknowledged position moves exactly to an acknowledgment that lies beyond it and
      within what was submitted. */
  lemma UnaMoves(c: Conn, seg: Seg, now: Time, cfg: Config)
    requires Inv(c, cfg) && !c.state.IsTerminal() && !c.state.IsSynchronizing()
    requires seg.ack <= c.snd.sent
    ensures InputAcknowledged(c, seg, now, cfg).snd.una
         == if c.snd.una < seg.ack <= c.snd.sent then seg.ack else c.snd.una
  {
    hide Acknowledge, ReceiveData, SenderInv, ReceiverInv, FlowInv, ControlInv, Extends;
    AcknowledgeInv(c, seg, now, cfg);
    var e := Acknowledge(c, seg, now, cfg);
    if !e.state.IsTerminal() {
      ReceiveDataInv(e, seg, now, cfg);
    }
  }

  /** No segment moves the oldest unacknowledged position anywhere else, short of an abort. */
  lemma UnaMovesOnlyByAck(c: Conn, seg: Seg, now: Time, cfg: Config)
    requires Inv(c, cfg)
    ensures
      var d := Input(c, seg, now, cfg);
      d.snd.una != c.snd.una && !d.state.IsAborted() ==>
        d.snd.una == seg.ack && c.snd.una < seg.ack <= c.snd.sent && HasAck(seg.flags)
  {
    hide Acceptable, HasSyn, HasAck, HasFin, HasRst, InputAcknowledged, Establish, ReceiveData;
    hide SenderInv, ReceiverInv, FlowInv, ControlInv;
    SenderMarks(c.state, c.snd, cfg);
    if c.state.SynSent? && seg.ack == c.snd.sent && c.snd.sent != c.snd.una {
      EstablishedSender(c, seg, now, cfg);
      EstablishedInv(c, seg, now, cfg);
      ReceiveDataInv(Establish(c, seg, now, cfg), seg.(pos := seg.pos + 1, flags := WithoutSyn(seg.flags)), now, cfg);
    } else if !c.state.SynSent? && !c.state.IsTerminal() && seg.ack <= c.snd.sent {
      InputAcknowledgedInv(c, seg, now, cfg);
      InputInv(c, seg, now, cfg);
    }
  }

  /** No other operation moves it, short of an abort. */
  lemma UnaMovesOnlyByInput(c: Conn, op: Op, cfg: Config)
    requires Inv(c, cfg) && !op.OpInput?
    ensures Apply(c, op, cfg).snd.una == c.snd.una || Apply(c, op, cfg).state.IsAborted()
  {
    hide Inv;
    if op.OpTransmit? {
      TransmitUna(c, op.at, cfg, op.outcome);
    }
  }

  lemma PrepareUna(c: Conn, at: Time, cfg: Config)
    ensures Prepare(c, at, cfg).snd.una == c.snd.una
  {
    hide MayPrepare, AfterIdle, Room, SendMss;
  }

  lemma AdmitUna(c: Conn, index: nat, at: Time)
    requires index < |c.snd.flights|
    ensures Admit(c, index, at).conn.snd.una == c.snd.una
  {
    hide Room, HasSyn, HasFin;
  }

  lemma TransmitUna(c: Conn, at: Time, cfg: Config, outcome: DeviceOutcome)
    ensures Transmit(c, at, cfg, outcome).snd.una == c.snd.una
  {
    hide Prepare, Admit, ChooseFlight, AfterSubmission, MarkSubmitted, Resubmitted, Emission, HasAck, LaterBy;
    PrepareUna(c, at, cfg);
    var d := Prepare(c, at, cfg);
    var index := ChooseFlight(d.snd, at);
    if index.Some? && index.value < |d.snd.flights| {
      AdmitUna(d, index.value, at);
    }
  }

  lemma EstablishedSender(c: Conn, seg: Seg, now: Time, cfg: Config)
    requires Inv(c, cfg) && c.state.SynSent? && seg.ack == c.snd.sent && c.snd.sent != c.snd.una
    ensures Establish(c, seg, now, cfg).snd.una == seg.ack
  {
    hide Acknowledge, Wrap;
    SenderStates(c.state, c.snd, cfg);
    var d := c.(rcv := c.rcv.(known := true, irs := seg.pos, next := seg.pos + 1),
                peer := PeerView(seg.window, Wrap(seg.pos), Wrap(seg.ack), MssOrDefault(seg.mss)));
    AcknowledgeSynInv(d, seg, now, cfg);
  }

  /** While a FIN exists, every byte written before it has been acknowledged; it is the only
      flight until it is acknowledged itself. */
  lemma FinFollowsEverything(c: Conn, cfg: Config)
    requires Inv(c, cfg) && (c.state.IsFinishing() || c.state.IsFinished())
    ensures c.snd.iss <= c.snd.una && AckedBytes(c.snd) == c.snd.written && c.snd.closed && c.snd.queued == []
    ensures c.state.IsFinishing() ==> |c.snd.flights| == 1 && FinFlight(c.snd.flights[0], c.snd)
    ensures c.state.IsFinished() ==> c.snd.flights == [] && c.snd.una == c.snd.iss + 2 + |c.snd.written|
  {
    hide AllSound, PayloadBytes;
  }

  /** A connection that closed normally has seen the peer's FIN and the acknowledgment of its own,
      and neither side of it holds back a byte (section 3.3.2 of RFC 9293). */
  lemma ClosedIsComplete(c: Conn, cfg: Config)
    requires Inv(c, cfg) && c.state.Closed?
    ensures c.rcv.eof && c.rcv.accepted == c.rcv.delivered + c.rcv.buffer
    ensures c.snd.una == c.snd.iss + 2 + |c.snd.written| && c.snd.flights == [] && c.snd.queued == []
    ensures c.snd.iss <= c.snd.una && AckedBytes(c.snd) == c.snd.written
  {
    hide SenderInv;
    FinFollowsEverything(c, cfg);
  }

  // ---------------------------------------------------------------- timers

  /** Every sample the estimator receives is the time since the only submission of the newest flight
      that the acknowledgment completed, and it touches no flight submitted more than once. Nothing else
      moves the estimator, except that a handshake that had to be repeated sets the timeout afresh. */
  lemma SampleRule(c: Conn, ack: int, now: Time, cfg: Config)
    requires Inv(c, cfg) && !c.state.IsAborted() && c.snd.una < ack <= c.snd.sent
    ensures
      var fs := c.snd.flights;
      var w := SweepFlights(fs, ack, now);
      var sampled := !w.ambiguous && w.sample.Some?;
      && (sampled ==>
            && 0 < w.done <= |fs|
            && |fs[w.done - 1].sends| == 1
            && w.sample.value == Monus(now, fs[w.done - 1].sends[0])
            && (forall i :: 0 <= i < w.done ==> fs[i].End() <= ack && |fs[i].sends| == 1)
            && (w.done < |fs| ==> ack < fs[w.done].End() && (fs[w.done].pos < ack ==> |fs[w.done].sends| == 1)))
      && var rtt := if sampled then UpdateRto(c.rtt, w.sample.value, cfg) else c.rtt;
         Advance(c, ack, now, cfg).rtt
           == if w.syn && c.cong.synRetransmitted
              then rtt.(rto := Min(Max(3_000_000_000, cfg.initialRto), cfg.maxRto)) else rtt
  {
    FlightsExtent(c, cfg);
    SentMarkHolds(c.state, c.snd, cfg);
    hide SenderInv, ReceiverInv, FlowInv, SweepFrom, UpdateRto, GrowWindow, InitialCwnd, RestartTimer;
    SampleIsSingleSubmission(c.snd.flights, ack, now, cfg);
  }

  lemma FlightsExtent(c: Conn, cfg: Config)
    requires Inv(c, cfg)
    ensures forall i :: 0 <= i < |c.snd.flights| ==> c.snd.flights[i].pos < c.snd.flights[i].End()
    ensures forall i :: 0 <= i < |c.snd.flights| && c.snd.flights[i].transmissions == 0 ==>
              c.snd.sent <= c.snd.flights[i].pos
  {
    hide Inv;
    forall i | 0 <= i < |c.snd.flights|
      ensures c.snd.flights[i].pos < c.snd.flights[i].End()
      ensures c.snd.flights[i].transmissions == 0 ==> c.snd.sent <= c.snd.flights[i].pos
    {
      FlightExtent(c, i, cfg);
      UnsentIsNewest(c, i, cfg);
    }
  }

  lemma FlightExtent(c: Conn, i: nat, cfg: Config)
    requires Inv(c, cfg) && i < |c.snd.flights|
    ensures c.snd.flights[i].pos < c.snd.flights[i].End()
  {
    hide DataRun, AllSound, PayloadBytes, ReceiverInv, FlowInv, ControlInv, SendBuffered, SentMark;
    if c.state.IsOpen() {
      RunMember(c.snd.flights, c.snd.iss, c.snd.written, c.snd.una, c.snd.next, i);
    }
  }

  function Earliest(a: Option<Time>, b: Option<Time>): Option<Time> {
    if a.None? then b else if b.None? then a else Some(Min(a.value, b.value))
  }

  function FlightDeadline(f: Flight, cfg: Config): Time {
    Min(if f.lastSent.Some? then LaterBy(f.lastSent.value, f.rto) else f.created, LaterBy(f.created, cfg.sendTimeout))
  }

  /** When the connection next needs attention. */
  function NextDeadline(c: Conn, cfg: Config): Option<Time> {
    if c.state.IsTerminal() then None
    else
      Earliest(Earliest(c.ctl.phaseDeadline, c.ctl.closeDeadline),
               Earliest(if c.snd.flights == [] then None else Some(FlightDeadline(c.snd.flights[0], cfg)),
                        if c.snd.closed && c.peer.window == 0 && c.snd.flights == [] && c.state.IsOpen()
                        then Some(c.ctl.windowProbeAt) else None))
  }

  /** Before its deadline a connection neither times out nor has a retransmission due. */
  lemma NothingBeforeDeadline(c: Conn, now: Time, cfg: Config)
    requires NextDeadline(c, cfg).Some? ==> now < NextDeadline(c, cfg).value
    requires forall i :: 0 <= i < |c.snd.flights| ==> c.snd.flights[i].created <= now
    ensures Tick(c, now, cfg) == c
    ensures !c.state.IsTerminal() && c.snd.flights != [] ==> !c.snd.flights[0].Due(now)
  {}
}
