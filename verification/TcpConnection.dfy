/**
 The connection engine as the source runs it: fields updated in place, positions kept as 32-bit
 numbers and compared by wrapping subtraction. Every method is proved to compute the reference
 model, in which positions are unbounded.
 */
module TcpConnection {
  import opened Prelude
  import opened SequenceNumbers
  import opened TcpSegment
  import opened TcpModel
  import opened TcpFlights
  import opened TcpInvariants

  datatype Flight = Record(
    sequence: u32,
    flags: byte,
    payload: seq<byte>,
    created: Time,
    lastSent: Option<Time>,
    transmissions: u32,
    rto: Time,
    persist: bool,
    rttEligible: bool)
  {
    function End(): u32 { WrappingAdd(sequence, SequenceLength(flags, payload)) }

    predicate Due(now: Time) { lastSent.None? || now >= LaterBy(lastSent.value, rto) }
  }

  /** The engine's record of a model flight. */
  function Image(f: TcpModel.Flight): Flight {
    Record(Wrap(f.pos), f.flags, f.payload, f.created, f.lastSent, f.transmissions, f.rto, f.persist, f.rttEligible)
  }

  predicate Mirror(fs: seq<Flight>, gs: seq<TcpModel.Flight>) {
    |fs| == |gs| && forall i :: 0 <= i < |fs| ==> fs[i] == Image(gs[i])
  }

  // ---------------------------------------------------------------- facts about flights

  /** Every flight lies inside the outstanding span, and control flags travel without data. */
  predicate Placed(f: TcpModel.Flight, s: Sender) {
    && s.una <= f.pos < f.End() <= s.next
    && (HasSyn(f.flags) || HasFin(f.flags) ==> f.payload == [] && f.End() == f.pos + 1)
  }

  lemma FlightPlaced(phase: TcpState, s: Sender, i: nat, cfg: Config)
    requires SenderInv(phase, s, cfg) && i < |s.flights|
    ensures Placed(s.flights[i], s)
  {
    if phase.IsOpen() {
      RunMember(s.flights, s.iss, s.written, s.una, s.next, i);
    }
    hide DataRun, AllSound, PayloadBytes;
  }

  lemma FlightsPlaced(phase: TcpState, s: Sender, cfg: Config)
    requires SenderInv(phase, s, cfg)
    ensures forall i :: 0 <= i < |s.flights| ==> Placed(s.flights[i], s)
  {
    forall i | 0 <= i < |s.flights| ensures Placed(s.flights[i], s) {
      FlightPlaced(phase, s, i, cfg);
    }
  }

  lemma {:induction false} SweepConserves(w: Sweep, ack: int, now: Time)
    ensures
      var r := SweepFrom(w, ack, now);
      r.bytes + PayloadBytes(r.rest) == w.bytes + PayloadBytes(w.rest)
    decreases |w.rest|
  {
    if w.rest == [] || w.rest[0].pos >= ack {
    } else if ack >= w.rest[0].End() {
      SweepConserves(Complete(w, now), ack, now);
    } else {
      assert Shorten(w, ack).rest[1..] == w.rest[1..];
    }
  }

  /** The send side as the engine stores it. */
  datatype SendFields = SendFields(
    queued: seq<byte>,
    closed: bool,
    flights: seq<Flight>,
    flightPayload: nat,
    una: u32,
    sent: u32,
    next: u32)

  /** The receive side as the engine stores it. */
  datatype ReceiveFields = ReceiveFields(buffer: seq<byte>, next: u32, eof: bool)

  predicate SendMatches(f: SendFields, s: Sender) {
    && f.queued == s.queued && f.closed == s.closed
    && Mirror(f.flights, s.flights) && f.flightPayload == PayloadBytes(s.flights)
    && f.una == Wrap(s.una) && f.sent == Wrap(s.sent) && f.next == Wrap(s.next)
  }

  predicate ReceiveMatches(f: ReceiveFields, r: Receiver) {
    f.buffer == r.buffer && f.next == Wrap(r.next) && f.eof == r.eof
  }

  lemma ImageEnd(f: TcpModel.Flight)
    ensures Image(f).End() == Wrap(f.End())
  {
    WrapAdd(f.pos, SequenceLength(f.flags, f.payload));
  }

  /** The engine's comparisons of a flight with an acknowledgment decide as the unbounded ones do. */
  lemma ImageOrder(f: TcpModel.Flight, s: Sender, position: int, cfg: Config)
    requires Placed(f, s) && s.una <= position <= s.next <= s.una + cfg.sendCapacity + 1 && cfg.Valid()
    ensures Before(Wrap(f.pos), Wrap(position)) <==> f.pos < position
    ensures Before(Wrap(position), Image(f).End()) <==> position < f.End()
    ensures f.pos <= position ==> WrappingSub(Wrap(position), Wrap(f.pos)) == position - f.pos
    ensures f.pos < position < f.End() ==> position - f.pos <= |f.payload|
  {
    BeforeIsLess(f.pos, position);
    BeforeIsLess(position, f.End());
    ImageEnd(f);
    WrapSub(position, f.pos);
  }

  lemma SweepStep(w: Sweep, ack: int, now: Time)
    ensures w.rest == [] || w.rest[0].pos >= ack ==> SweepFrom(w, ack, now) == w
    ensures w.rest != [] && w.rest[0].pos < ack && w.rest[0].End() <= ack ==>
              SweepFrom(w, ack, now) == SweepFrom(Complete(w, now), ack, now)
    ensures w.rest != [] && w.rest[0].pos < ack < w.rest[0].End() ==> SweepFrom(w, ack, now) == Shorten(w, ack)
  {
    hide Complete, Shorten, SequenceLength;
  }

  /** Completes and shortens flights from the front of the queue, by 32-bit comparisons only. */
  method SweepRecords(fs: seq<Flight>, ack: u32, now: Time, ghost s: Sender, ghost position: int, ghost cfg: Config)
    returns (rest: seq<Flight>, syn: bool, fin: bool, ambiguous: bool, sample: Option<Time>, bytes: nat)
    requires cfg.Valid() && s.una <= position <= s.next <= s.una + cfg.sendCapacity + 1
    requires Mirror(fs, s.flights) && ack == Wrap(position)
    requires forall i :: 0 <= i < |s.flights| ==> Placed(s.flights[i], s)
    ensures
      var w := SweepFlights(s.flights, position, now);
      Mirror(rest, w.rest) && (syn, fin, ambiguous, sample, bytes) == (w.syn, w.fin, w.ambiguous, w.sample, w.bytes)
  {
    hide Wrap, Before, WrappingSub, WrappingAdd, SequenceLength, HasSyn, HasFin, Placed, SweepFrom;
    rest, syn, fin, ambiguous, sample, bytes := fs, false, false, false, None, 0;
    ghost var w := TcpModel.Sweep(s.flights, 0, false, false, false, None, 0);
    while rest != []
      invariant Mirror(rest, w.rest)
      invariant (syn, fin, ambiguous, sample, bytes) == (w.syn, w.fin, w.ambiguous, w.sample, w.bytes)
      invariant forall i :: 0 <= i < |w.rest| ==> Placed(w.rest[i], s)
      invariant SweepFrom(w, position, now) == SweepFlights(s.flights, position, now)
      decreases |rest|
    {
      var f := rest[0];
      ghost var g := w.rest[0];
      assert f == Image(g);
      ImageOrder(g, s, position, cfg);
      SweepStep(w, position, now);
      if !Before(f.sequence, ack) { break; }
      ambiguous := ambiguous || !f.rttEligible || f.transmissions > 1;
      if !Before(ack, f.End()) {
        syn := syn || HasSyn(f.flags);
        fin := fin || HasFin(f.flags);
        bytes := bytes + |f.payload|;
        if f.transmissions == 1 && f.rttEligible {
          sample := if f.lastSent.Some? then Some(Monus(now, f.lastSent.value)) else None;
        }
        rest := rest[1..];
        w := Complete(w, now);
      } else {
        var consumed := WrappingSub(ack, f.sequence);
        // The source gives up here when `consumed` exceeds the payload; that cannot happen.
        assert consumed <= |f.payload|;
        rest := rest[0 := f.(payload := f.payload[consumed..], sequence := ack, rttEligible := false)];
        bytes := bytes + consumed;
        w := Shorten(w, position);
        return;
      }
    }
    SweepStep(w, position, now);
  }

  method ClearPersist(fs: seq<Flight>) returns (r: seq<Flight>)
    ensures |r| == |fs|
    ensures forall i :: 0 <= i < |fs| ==> r[i] == fs[i].(persist := false)
  {
    r := fs;
    for k := 0 to |fs|
      invariant |r| == |fs|
      invariant forall i :: 0 <= i < |fs| ==> r[i] == if i < k then fs[i].(persist := false) else fs[i]
    {
      r := r[k := r[k].(persist := false)];
    }
  }

  method ClearEligible(fs: seq<Flight>) returns (r: seq<Flight>)
    ensures |r| == |fs|
    ensures forall i :: 0 <= i < |fs| ==> r[i] == fs[i].(rttEligible := false)
  {
    r := fs;
    for k := 0 to |fs|
      invariant |r| == |fs|
      invariant forall i :: 0 <= i < |fs| ==> r[i] == if i < k then fs[i].(rttEligible := false) else fs[i]
    {
      r := r[k := r[k].(rttEligible := false)];
    }
  }

  /** Pushes `bytes` back, last one first, to the front of the queue. */
  method Requeue(bytes: seq<byte>, queue: seq<byte>) returns (r: seq<byte>)
    ensures r == bytes + queue
  {
    r := queue;
    var k := |bytes|;
    while k > 0
      invariant 0 <= k <= |bytes|
      invariant r == bytes[k..] + queue
    {
      k := k - 1;
      r := [bytes[k]] + r;
    }
  }

  lemma RestartMirror(fs: seq<Flight>, gs: seq<TcpModel.Flight>, rto: Time, now: Time)
    requires Mirror(fs, gs)
    ensures Mirror(if fs != [] && fs[0].lastSent.Some?
                   then fs[0 := fs[0].(lastSent := Some(now), rto := rto, rttEligible := false)] else fs,
                   RestartTimer(gs, rto, now))
    ensures PayloadBytes(RestartTimer(gs, rto, now)) == PayloadBytes(gs)
  {
    assert SameData(gs, RestartTimer(gs, rto, now));
    PayloadSame(gs, RestartTimer(gs, rto, now));
  }

  lemma UpdateWindowPhase(c: Conn, phase: TcpState, seg: Seg)
    ensures TcpModel.UpdateWindow(c, seg) == TcpModel.UpdateWindow(c.(state := phase), seg).(state := c.state)
  {
    hide AnnouncesWindow, Wrap, StopPersisting;
  }

  lemma EstablishedPosition(c: Conn, seg: Seg, now: Time, cfg: Config)
    requires Inv(c, cfg) && c.state.SynSent? && seg.ack == c.snd.sent && c.snd.sent != c.snd.una
    ensures Establish(c, seg, now, cfg).rcv.next == seg.pos + 1
  {
    EstablishedInv(c, seg, now, cfg);
    SenderStates(c.state, c.snd, cfg);
    hide TcpModel.Acknowledge, Wrap;
    var d := c.(rcv := c.rcv.(known := true, irs := seg.pos, next := seg.pos + 1),
                peer := PeerView(seg.window, Wrap(seg.pos), Wrap(seg.ack), MssOrDefault(seg.mss)));
    AcknowledgeSynInv(d, seg, now, cfg);
  }

  /** What the engine's 32-bit tests on an arriving segment decide about its true position. */
  lemma PlaceFacts(c: Conn, s: Segment)
    requires !c.state.SynSent?
    ensures
      var seg := Place(c, s);
      && AsI32(WrappingSub(s.sequence, Wrap(c.rcv.next))) == seg.pos - c.rcv.next
      && (s.sequence == Wrap(c.rcv.next) <==> seg.pos == c.rcv.next)
      && (WrappingAdd(s.sequence, 1) == Wrap(c.rcv.next) <==> seg.pos + 1 == c.rcv.next)
      && (Before(Wrap(c.snd.sent), s.acknowledgment) <==> c.snd.sent < seg.ack)
      && Wrap(seg.pos) == s.sequence && Wrap(seg.ack) == s.acknowledgment && c.snd.sent - 0x8000_0000 < seg.ack
  {
    hide Place, Wrap, Before, WrappingAdd, WrappingSub, AsI32;
    var seg := Place(c, s);
    PlaceBounds(c, s);
    WrapInjective(seg.pos, c.rcv.next);
    WrapAdd(seg.pos, 1);
    WrapInjective(seg.pos + 1, c.rcv.next);
    BeforeIsLess(c.snd.sent, seg.ack);
    WrapSub(seg.pos, c.rcv.next);
    SignedDifference(seg.pos - c.rcv.next);
  }

  lemma PlaceBounds(c: Conn, s: Segment)
    requires !c.state.SynSent?
    ensures
      var seg := Place(c, s);
      && -0x8000_0000 <= seg.pos - c.rcv.next < 0x8000_0000 && -0x8000_0000 < seg.ack - c.snd.sent <= 0x8000_0000
      && Wrap(seg.pos) == s.sequence && Wrap(seg.ack) == s.acknowledgment
  {
    hide UnwrapSequence, UnwrapAck, Wrap;
  }

  lemma ReceiveRoom(c: Conn, cfg: Config)
    requires Inv(c, cfg)
    ensures |c.rcv.buffer| <= cfg.receiveCapacity && cfg.Valid()
  {
    hide SenderInv, FlowInv, ControlInv;
  }

  lemma SignedDifference(d: int)
    requires -0x8000_0000 <= d < 0x8000_0000
    ensures AsI32(Wrap(d)) == d
  {
    if d < 0 { RemainderUnique(d, -1, d + 0x1_0000_0000); } else { RemainderUnique(d, 0, d); }
  }

  lemma {:induction false} PayloadAppend(fs: seq<TcpModel.Flight>, f: TcpModel.Flight)
    ensures PayloadBytes(fs + [f]) == PayloadBytes(fs) + |f.payload|
  {
    if fs == [] {
      assert (fs + [f])[1..] == [];
    } else {
      assert (fs + [f])[1..] == fs[1..] + [f];
      PayloadAppend(fs[1..], f);
    }
  }

  lemma {:induction false} PayloadUpdate(fs: seq<TcpModel.Flight>, i: nat, f: TcpModel.Flight)
    requires i < |fs|
    ensures PayloadBytes(fs[i := f]) == PayloadBytes(fs) - |fs[i].payload| + |f.payload|
  {
    if i > 0 {
      assert fs[i := f][1..] == fs[1..][i - 1 := f];
      PayloadUpdate(fs[1..], i - 1, f);
    } else {
      assert fs[i := f][1..] == fs[1..];
    }
  }

  lemma LastEndsRun(phase: TcpState, s: Sender, cfg: Config)
    requires SenderInv(phase, s, cfg) && s.flights != []
    ensures Last(s.flights).End() == s.next
    ensures Last(s.flights).payload != [] ==> !HasSyn(Last(s.flights).flags) && !HasFin(Last(s.flights).flags)
    ensures cfg.Valid() ==> |Last(s.flights).payload| < 0x8000_0000
  {
    FlightPlaced(phase, s, |s.flights| - 1, cfg);
    SenderMarks(phase, s, cfg);
    if phase.IsOpen() {
      RunLength(s.flights, s.iss, s.written, s.una, s.next);
    }
    hide DataRun, AllSound, PayloadBytes;
  }

  lemma SubmittedPayload(c: Conn, index: nat, now: Time, cfg: Config)
    requires index < |c.snd.flights|
    ensures PayloadBytes(Submitted(c, index, now, cfg).snd.flights) == PayloadBytes(c.snd.flights)
  {
    hide OnLoss;
    PayloadSame(c.snd.flights, Submitted(c, index, now, cfg).snd.flights);
  }

  /** Marks flight `index` as submitted at `now`; after a resubmission no flight may be timed. */
  method MarkRecord(fs: seq<Flight>, index: nat, now: Time, cfg: Config, ghost gs: seq<TcpModel.Flight>)
    returns (r: seq<Flight>)
    requires Mirror(fs, gs) && index < |fs|
    ensures Mirror(r, MarkSubmitted(gs, index, now, cfg)) && |r| == |fs|
    ensures r[index].rto == Resubmitted(gs[index], now, cfg).rto
  {
    hide Wrap;
    var f := fs[index];
    assert f == Image(gs[index]);
    var again := f.transmissions > 0;
    if again {
      f := f.(rto := Min(Times(f.rto, 2), cfg.maxRto), rttEligible := false);
    }
    f := f.(transmissions := Min(f.transmissions + 1, 0xffff_ffff), lastSent := Some(now));
    assert f == Image(Resubmitted(gs[index], now, cfg));
    r := fs[index := f];
    if again { r := ClearEligible(r); }
  }

  lemma SubmissionFacts(c: Conn, index: nat, cfg: Config)
    requires Inv(c, cfg) && index < |c.snd.flights|
    ensures
      var f := c.snd.flights[index];
      && WrappingSub(Wrap(c.snd.sent), Wrap(c.snd.una)) == c.snd.InFlight()
      && (Before(Wrap(c.snd.sent), Image(f).End()) <==> c.snd.sent < f.End())
      && Image(f).End() == Wrap(f.End())
  {
    SenderMarks(c.state, c.snd, cfg);
    FlightPlaced(c.state, c.snd, index, cfg);
    WrapSub(c.snd.sent, c.snd.una);
    BeforeIsLess(c.snd.sent, c.snd.flights[index].End());
    ImageEnd(c.snd.flights[index]);
    hide SenderInv, ReceiverInv, Wrap, Before, WrappingSub;
  }

  /** An acceptable segment starts near the expected position. */
  lemma AcceptableNear(r: Receiver, seg: Seg, cfg: Config)
    requires Acceptable(r, seg, cfg) ==> |seg.payload| < 0x1_0000 && cfg.receiveWindowLimit < 0x1_0000
    ensures Acceptable(r, seg, cfg) ==> -0x4000_0000 <= seg.pos - r.next <= 0x4000_0000
  {
    hide HasSyn, HasFin;
  }

  lemma ActiveMatches(iss: u32, now: Time, cfg: Config)
    ensures
      var syn := Record(iss, SYN, [], now, None, 0, cfg.initialRto, false, true);
      SendMatches(SendFields([], false, [syn], 0, iss, iss, syn.End()), TcpModel.Active(iss, now, cfg).snd)
  {
    var s := TcpModel.Active(iss, now, cfg).snd;
    RemainderUnique(iss, 0, iss);
    ImageEnd(s.flights[0]);
    hide Wrap, WrappingAdd, HasSyn, HasFin;
    assert PayloadBytes(s.flights) == 0 by { assert s.flights[1..] == []; }
  }

  lemma PassiveMatches(syn: Segment, iss: u32, now: Time, cfg: Config)
    ensures
      var synAck := Record(iss, SYN + ACK, [], now, None, 0, cfg.initialRto, false, true);
      SendMatches(SendFields([], false, [synAck], 0, iss, iss, synAck.End()), TcpModel.Passive(syn, iss, now, cfg).snd)
  {
    var s := TcpModel.Passive(syn, iss, now, cfg).snd;
    RemainderUnique(iss, 0, iss);
    ImageEnd(s.flights[0]);
    assert SequenceLength(SYN + ACK, []) == SequenceLength(SYN, []);
    hide Wrap, WrappingAdd, HasSyn, HasFin;
    assert PayloadBytes(s.flights) == 0 by { assert s.flights[1..] == []; }
  }

  lemma SubmittedShape(c: Conn, index: nat, now: Time, cfg: Config)
    requires index < |c.snd.flights|
    ensures
      var f := c.snd.flights[index];
      Submitted(c, index, now, cfg)
        == c.(cong := AfterSubmission(c.cong, c.peer, f, c.snd.InFlight(), now, cfg),
              rtt := if f.transmissions > 0 then c.rtt.(rto := Resubmitted(f, now, cfg).rto) else c.rtt,
              snd := c.snd.(flights := MarkSubmitted(c.snd.flights, index, now, cfg), sent := Max(c.snd.sent, f.End())))
  {
    hide AfterSubmission, MarkSubmitted, Resubmitted;
  }

  lemma SubmittedMatches(s: SendFields, c: Conn, flights: seq<Flight>, index: nat, now: Time, cfg: Config)
    requires Inv(c, cfg) && index < |c.snd.flights| && SendMatches(s, c.snd)
    requires Mirror(flights, MarkSubmitted(c.snd.flights, index, now, cfg))
    ensures
      var end := Image(c.snd.flights[index]).End();
      SendMatches(s.(flights := flights, sent := if Before(s.sent, end) then end else s.sent),
                  c.snd.(flights := MarkSubmitted(c.snd.flights, index, now, cfg),
                         sent := Max(c.snd.sent, c.snd.flights[index].End())))
  {
    hide Inv, Wrap, WrappingSub, WrappingAdd, Before, SequenceLength, AfterSubmission, PayloadBytes, MarkSubmitted,
         Mirror, Submitted;
    SubmissionFacts(c, index, cfg);
    SubmittedPayload(c, index, now, cfg);
    SubmittedShape(c, index, now, cfg);
  }

  lemma AdmitFacts(c: Conn, index: nat, now: Time, cfg: Config)
    requires Inv(c, cfg) && ChooseFlight(c.snd, now) == Some(index) && index < |c.snd.flights|
    ensures WrappingSub(Wrap(c.snd.sent), Wrap(c.snd.una)) == c.snd.InFlight() >= 0
    ensures
      var f := c.snd.flights[index];
      f.transmissions == 0 ==>
        && index == |c.snd.flights| - 1 && f.End() == c.snd.next && |f.payload| < 0x8000_0000
        && (f.payload != [] ==> !HasSyn(f.flags) && !HasFin(f.flags))
  {
    hide Wrap, WrappingSub, SenderInv, ReceiverInv, FlowInv, HasSyn, HasFin;
    SenderMarks(c.state, c.snd, cfg);
    WrapSub(c.snd.sent, c.snd.una);
    if c.snd.flights[index].transmissions == 0 {
      OnlyLastUnsent(c.state, c.snd, index, cfg);
      LastEndsRun(c.state, c.snd, cfg);
    }
  }

  /** What an acceptable acknowledgment finds, in the words of the engine. */
  lemma AcknowledgedFacts(c: Conn, seg: Seg, now: Time, cfg: Config)
    requires Inv(c, cfg) && !c.state.IsTerminal() && !c.state.SynSent?
    requires c.snd.sent - 0x8000_0000 < seg.ack <= c.snd.sent
    ensures cfg.Valid() && SenderInv(c.state, c.snd, cfg) && FlowInv(c.cong, c.rtt, cfg)
    ensures Wrap(seg.ack) == Wrap(c.snd.sent) <==> seg.ack == c.snd.sent
    ensures Wrap(c.snd.sent) == Wrap(c.snd.una) <==> c.snd.sent == c.snd.una
    ensures
      var d := if c.state.SynReceived? then c.(state := Established, ctl := c.ctl.(phaseDeadline := None)) else c;
      var e := TcpModel.Acknowledge(d, seg, now, cfg);
      (c.state.SynReceived? ==> seg.ack == c.snd.sent && c.snd.sent != c.snd.una) ==> Inv(e, cfg) && e.rcv == c.rcv
  {
    hide Wrap, SenderInv, ReceiverInv, FlowInv, TcpModel.Acknowledge, Extends;
    SenderMarks(c.state, c.snd, cfg);
    WrapInjective(seg.ack, c.snd.sent);
    WrapInjective(c.snd.sent, c.snd.una);
    if c.state.SynReceived? {
      if seg.ack == c.snd.sent && c.snd.sent != c.snd.una { SynAcknowledgedInv(c, seg, now, cfg); }
    } else {
      AcknowledgeInv(c, seg, now, cfg);
    }
  }

  /** What the device layer answered to an attempt to send one segment. */
  datatype DeviceAnswer = NoFrame | BuildFailed | Blocked | SendFailed | Taken

  datatype Progress = Progress(sent: bool, retransmitted: bool)

  class Connection {
    var state: TcpState
    var snd: SendFields
    var rcv: ReceiveFields
    var cong: Congestion
    var peer: PeerView
    var rtt: Rtt
    var ctl: Control
    ghost var model: Conn

    /** The fields are the 32-bit image of the model. */
    ghost predicate Matches()
      reads this
    {
      && state == model.state && SendMatches(snd, model.snd) && ReceiveMatches(rcv, model.rcv)
      && cong == model.cong && peer == model.peer && rtt == model.rtt && ctl == model.ctl
    }

    ghost predicate Valid(cfg: Config)
      reads this
    {
      Matches() && Inv(model, cfg)
    }

    // -------------------------------------------------------------- opening

    constructor Active(iss: u32, now: Time, cfg: Config)
      requires cfg.Valid()
      ensures Valid(cfg) && model == TcpModel.Active(iss, now, cfg)
    {
      var syn := Record(iss, SYN, [], now, None, 0, cfg.initialRto, false, true);
      state := SynSent;
      snd := SendFields([], false, [syn], 0, iss, iss, syn.End());
      rcv := ReceiveFields([], 0, false);
      cong := Congestion(Min(cfg.maxCwnd, cfg.mss), cfg.initialSsthresh, 0, None, false);
      peer := PeerView(0, 0, 0, 536);
      rtt := Rtt(cfg.initialRto, None, 0);
      ctl := Control(false, false, now, Some(LaterBy(now, cfg.handshakeTimeout)), None, false);
      model := TcpModel.Active(iss, now, cfg);
      new;
      ActiveInv(iss, now, cfg);
      hide Inv, SendMatches, Wrap;
      ActiveMatches(iss, now, cfg);
    }

    constructor Passive(syn: Segment, iss: u32, now: Time, cfg: Config)
      requires cfg.Valid()
      ensures Valid(cfg) && model == TcpModel.Passive(syn, iss, now, cfg)
    {
      var synAck := Record(iss, SYN + ACK, [], now, None, 0, cfg.initialRto, false, true);
      state := SynReceived;
      snd := SendFields([], false, [synAck], 0, iss, iss, synAck.End());
      rcv := ReceiveFields([], WrappingAdd(syn.sequence, 1), false);
      cong := Congestion(Min(cfg.maxCwnd, cfg.mss), cfg.initialSsthresh, 0, None, false);
      peer := PeerView(syn.window, syn.sequence, 0, MssOrDefault(syn.mss));
      rtt := Rtt(cfg.initialRto, None, 0);
      ctl := Control(false, false, now, Some(LaterBy(now, cfg.handshakeTimeout)), None, false);
      model := TcpModel.Passive(syn, iss, now, cfg);
      new;
      PassiveInv(syn, iss, now, cfg);
      hide Inv, SendMatches, Wrap;
      PassiveMatches(syn, iss, now, cfg);
    }

    // -------------------------------------------------------------- application calls

    method Write(bytes: seq<byte>, cfg: Config) returns (r: Result<nat, WriteError>)
      requires Valid(cfg)
      modifies this
      ensures Valid(cfg) && model == TcpModel.Write(old(model), bytes, cfg)
      ensures r == WriteResult(old(model), bytes, cfg)
    {
      hide Phase, AllSound, ReceiverInv, FlowInv, Wrap, PayloadBytes, Extends;
      assert SendBuffered(model.snd) <= cfg.sendCapacity;
      hide Inv;
      WriteInv(model, bytes, cfg);
      if snd.closed || !state.IsOpen() { return Err(NotConnected); }
      if bytes == [] { return Ok(0); }
      var n := Min(|bytes|, cfg.sendCapacity - (|snd.queued| + snd.flightPayload));
      if n == 0 { return Err(SendBufferFull); }
      snd := snd.(queued := snd.queued + bytes[..n]);
      model := TcpModel.Write(model, bytes, cfg);
      return Ok(n);
    }

    method Read(room: nat, ghost cfg: Config) returns (r: Result<seq<byte>, ReadError>)
      requires Valid(cfg)
      modifies this
      ensures Valid(cfg) && model == TcpModel.Read(old(model), room)
      ensures r == ReadResult(old(model), room)
    {
      hide Inv, Extends, Wrap, SendMatches;
      ReadInv(model, room, cfg);
      if room == 0 { return Ok([]); }
      if ctl.localError { return Err(LocalFailure); }
      if state.Reset? { return Err(ConnectionReset); }
      if state.TimedOut? { return Err(ConnectionTimedOut); }
      var n := Min(room, |rcv.buffer|);
      if n > 0 {
        var out := rcv.buffer[..n];
        rcv := rcv.(buffer := rcv.buffer[n..]);
        ctl := ctl.(ackPending := true);
        model := TcpModel.Read(model, room);
        return Ok(out);
      }
      if rcv.eof || state.Closed? { return Ok([]); }
      return Err(NoData);
    }

    method Close(now: Time, cfg: Config) returns (ok: bool)
      requires Valid(cfg)
      modifies this
      ensures Valid(cfg) && model == TcpModel.Close(old(model), now, cfg)
      ensures ok == CloseAccepted(old(model))
    {
      hide Inv, Extends, Wrap;
      CloseInv(model, now, cfg);
      if snd.closed { return true; }
      if !state.IsOpen() { return false; }
      snd := snd.(closed := true);
      ctl := ctl.(closeDeadline := Some(LaterBy(now, cfg.closeTimeout)));
      model := TcpModel.Close(model, now, cfg);
      return true;
    }

    method Fail(to: TcpState, ghost cfg: Config)
      requires Valid(cfg) && to.IsAborted()
      modifies this
      ensures Valid(cfg) && model == TcpModel.Fail(old(model), to)
    {
      hide Inv, Extends, Wrap;
      FailInv(model, to, cfg);
      state := to;
      snd := snd.(queued := [], flights := [], flightPayload := 0, una := snd.sent, next := snd.sent);
      rcv := rcv.(buffer := []);
      ctl := ctl.(localError := false, ackPending := false, phaseDeadline := None, closeDeadline := None);
      model := TcpModel.Fail(model, to);
    }

    method Tick(now: Time, cfg: Config)
      requires Valid(cfg)
      modifies this
      ensures Valid(cfg) && model == TcpModel.Tick(old(model), now, cfg)
    {
      hide Inv, Extends, Wrap, TcpModel.Fail;
      TickInv(model, now, cfg);
      if state.IsTerminal() { return; }
      if state.TimeWait? {
        if Reached(ctl.phaseDeadline, now) {
          state := Closed;
          ctl := ctl.(phaseDeadline := None, ackPending := false);
          model := TcpModel.Tick(model, now, cfg);
        }
        return;
      }
      var expired := Reached(ctl.phaseDeadline, now) || Reached(ctl.closeDeadline, now);
      if snd.flights != [] {
        var f := snd.flights[0];
        expired := expired || now >= LaterBy(f.created, cfg.sendTimeout)
          || (!f.persist && f.Due(now) && f.transmissions > cfg.maxRetransmits);
      }
      if expired { Fail(TimedOut, cfg); }
    }

    // -------------------------------------------------------------- acknowledgment

    /** The round-trip estimator. */
    method UpdateRto(sample: Time, cfg: Config)
      modifies `rtt
      ensures rtt == TcpModel.UpdateRto(old(rtt), sample, cfg)
    {
      var srtt, rttvar;
      if rtt.srtt.Some? {
        var difference := if rtt.srtt.value > sample then rtt.srtt.value - sample else sample - rtt.srtt.value;
        rttvar := LaterBy(Times(rtt.rttvar, 3) / 4, difference / 4);
        srtt := LaterBy(Times(rtt.srtt.value, 7) / 8, sample / 8);
      } else {
        srtt := sample;
        rttvar := sample / 2;
      }
      rtt := Rtt(ClampRto(LaterBy(srtt, Max(Times(rttvar, 4), MILLISECOND)), cfg), Some(srtt), rttvar);
    }

    method GrowWindow(bytes: nat, cfg: Config)
      requires cfg.Valid() && 1 <= cong.cwnd <= cfg.maxCwnd
      modifies `cong
      ensures cong == TcpModel.GrowWindow(old(cong), peer, bytes, cfg)
    {
      var mss := SendMss(peer, cfg);
      if cong.cwnd < cong.ssthresh {
        cong := cong.(cwnd := SizeAdd(cong.cwnd, Min(bytes, mss)));
      } else {
        cong := cong.(credit := SizeAdd(cong.credit, bytes));
        if cong.credit >= cong.cwnd {
          cong := cong.(credit := cong.credit - cong.cwnd, cwnd := SizeAdd(cong.cwnd, mss));
        }
      }
      cong := cong.(cwnd := Min(cong.cwnd, cfg.maxCwnd));
    }

    /** An arriving segment and its place in the unbounded sequence spaces. */
    ghost predicate Carries(segment: Segment, seg: Seg) {
      && segment.sequence == Wrap(seg.pos) && segment.acknowledgment == Wrap(seg.ack)
      && segment.flags == seg.flags && segment.window == seg.window && segment.mss == seg.mss
      && segment.payload == seg.payload
    }

    method UpdateWindow(segment: Segment, ghost seg: Seg)
      requires Matches() && Carries(segment, seg)
      modifies `peer, `snd, `model
      ensures Matches() && model == TcpModel.UpdateWindow(old(model), seg)
    {
      hide Wrap, Before;
      if Before(peer.sequence, segment.sequence)
         || (peer.sequence == segment.sequence && !Before(segment.acknowledgment, peer.ack)) {
        peer := PeerView(segment.window, segment.sequence, segment.acknowledgment, peer.mss);
        if peer.window > 0 {
          assert SameData(model.snd.flights, StopPersisting(model.snd.flights));
          PayloadSame(model.snd.flights, StopPersisting(model.snd.flights));
          var cleared := ClearPersist(snd.flights);
          assert Mirror(cleared, StopPersisting(model.snd.flights));
          snd := snd.(flights := cleared);
        }
        model := TcpModel.UpdateWindow(model, seg);
      }
    }

    /** Drops what `ack` covers from the flight queue, times it and restarts the timer. */
    method RemoveAcknowledged(ack: u32, now: Time, cfg: Config, ghost position: int, ghost phase: TcpState)
      returns (syn: bool, fin: bool, bytes: nat)
      requires Matches() && cfg.Valid() && SenderInv(phase, model.snd, cfg)
      requires ack == Wrap(position) && model.snd.una < position <= model.snd.sent
      modifies `snd, `rtt
      ensures
        var w := SweepFlights(model.snd.flights, position, now);
        && (syn, fin, bytes) == (w.syn, w.fin, w.bytes)
        && rtt == (if !w.ambiguous && w.sample.Some?
                   then TcpModel.UpdateRto(old(rtt), w.sample.value, cfg) else old(rtt))
        && SendMatches(snd, model.snd.(flights := RestartTimer(w.rest, rtt.rto, now), una := position))
    {
      hide Wrap, Before, SweepFrom, TcpModel.UpdateRto, SenderInv, Placed, Mirror, PayloadBytes, RestartTimer;
      FlightsPlaced(phase, model.snd, cfg);
      SenderMarks(phase, model.snd, cfg);
      SweepConserves(TcpModel.Sweep(model.snd.flights, 0, false, false, false, None, 0), position, now);
      var rest, ambiguous, sample;
      rest, syn, fin, ambiguous, sample, bytes := SweepRecords(snd.flights, ack, now, model.snd, position, cfg);
      ghost var w := SweepFlights(model.snd.flights, position, now);
      hide SweepFlights;
      if !ambiguous && sample.Some? { UpdateRto(sample.value, cfg); }
      RestartMirror(rest, w.rest, rtt.rto, now);
      if rest != [] && rest[0].lastSent.Some? {
        rest := rest[0 := rest[0].(lastSent := Some(now), rto := rtt.rto, rttEligible := false)];
      }
      snd := snd.(flights := rest, flightPayload := snd.flightPayload - bytes, una := ack);
    }

    method EnterTimeWait(now: Time, cfg: Config)
      modifies `state, `ctl
      ensures state == TimeWait
      ensures ctl == old(ctl).(closeDeadline := None, phaseDeadline := Some(LaterBy(now, cfg.timeWait)))
    {
      state := TimeWait;
      ctl := ctl.(closeDeadline := None, phaseDeadline := Some(LaterBy(now, cfg.timeWait)));
    }

    method AcknowledgeFin(now: Time, cfg: Config)
      modifies `state, `ctl
      ensures forall c: Conn :: c.state == old(state) && c.ctl == old(ctl) ==>
        FinAcknowledged(c, now, cfg) == c.(state := state, ctl := ctl)
    {
      match state
      case FinWait1 => state := FinWait2;
      case Closing => EnterTimeWait(now, cfg);
      case LastAck =>
        state := Closed;
        ctl := ctl.(closeDeadline := None, ackPending := false);
      case _ =>
    }

    /** Progress of the send side: `ack` lies beyond the oldest unacknowledged position. */
    method Advance(ack: u32, now: Time, cfg: Config, ghost position: int, ghost phase: TcpState)
      requires Matches() && cfg.Valid() && FlowInv(cong, rtt, cfg)
      requires SenderInv(phase, model.snd, cfg)
      requires ack == Wrap(position) && model.snd.una < position <= model.snd.sent
      modifies this
      ensures Matches() && model == TcpModel.Advance(old(model), position, now, cfg)
    {
      hide SendMatches, ReceiveMatches, SenderInv, SweepFlights, RestartTimer, InitialCwnd, ClampRto;
      hide Wrap, TcpModel.UpdateRto, TcpModel.GrowWindow, FinAcknowledged;
      var syn, fin, bytes := RemoveAcknowledged(ack, now, cfg, position, phase);
      if syn {
        cong := cong.(cwnd := InitialCwnd(cong, peer, cfg));
        if cong.synRetransmitted { rtt := rtt.(rto := ClampRto(3 * SECOND, cfg)); }
      } else if bytes > 0 {
        GrowWindow(bytes, cfg);
      }
      if fin { AcknowledgeFin(now, cfg); }
      model := TcpModel.Advance(model, position, now, cfg);
    }

    /** Cumulative acknowledgment of at most what was submitted. */
    method Acknowledge(segment: Segment, now: Time, cfg: Config, ghost seg: Seg, ghost phase: TcpState)
      requires Matches() && Carries(segment, seg) && cfg.Valid() && FlowInv(cong, rtt, cfg)
      requires SenderInv(phase, model.snd, cfg)
      requires model.snd.sent - 0x8000_0000 < seg.ack <= model.snd.sent
      modifies this
      ensures Matches() && model == TcpModel.Acknowledge(old(model), seg, now, cfg)
    {
      SenderMarks(phase, model.snd, cfg);
      BeforeIsLess(seg.ack, model.snd.una);
      WrapInjective(seg.ack, model.snd.una);
      hide Wrap, Before, SenderInv, TcpModel.Advance, TcpModel.UpdateWindow, FlowInv;
      if Before(segment.acknowledgment, snd.una) { return; }
      UpdateWindowInv(model.(state := phase), seg, cfg);
      UpdateWindowPhase(model, phase, seg);
      UpdateWindow(segment, seg);
      if segment.acknowledgment == snd.una { return; }
      Advance(segment.acknowledgment, now, cfg, seg.ack, phase);
    }

    // -------------------------------------------------------------- received data

    method FinishPeer(now: Time, cfg: Config)
      requires Matches()
      modifies this
      ensures Matches() && model == PeerFinished(old(model), now, cfg)
    {
      hide SendMatches, Wrap;
      WrapAdd(model.rcv.next, 1);
      model := PeerFinished(model, now, cfg);
      rcv := rcv.(next := WrappingAdd(rcv.next, 1), eof := true);
      match state
      case Established => state := CloseWait;
      case FinWait1 => state := Closing;
      case FinWait2 => EnterTimeWait(now, cfg);
      case _ =>
    }

    /** Stores what fits of the payload from `skip` on, and the FIN behind it if that is now next. */
    method TakeData(segment: Segment, skip: nat, now: Time, cfg: Config, ghost seg: Seg)
      requires Matches() && cfg.Valid() && Carries(segment, seg) && |segment.payload| < 0x1_0000
      requires TakesData(model, seg, cfg) && skip == model.rcv.next - seg.pos
      modifies this
      ensures Matches()
      ensures
        var c := old(model);
        var window := AdvertisedWindow(c.rcv, cfg);
        var d := c.(rcv := AcceptBytes(c.rcv, seg, window));
        model == if HasFin(seg.flags) && seg.pos + |seg.payload| == d.rcv.next && d.rcv.next - c.rcv.next < window
                 then PeerFinished(d, now, cfg) else d
    {
      hide WrappingAdd, SendMatches, Wrap, HasFin, PeerFinished;
      var window := Min(cfg.receiveCapacity - |rcv.buffer|, cfg.receiveWindowLimit);
      var count := Min(|segment.payload| - skip, window);
      WrapAdd(model.rcv.next, count);
      WrapAdd(seg.pos, |segment.payload|);
      WrapInjective(seg.pos + |seg.payload|, model.rcv.next + count);
      rcv := rcv.(buffer := rcv.buffer + segment.payload[skip..skip + count], next := WrappingAdd(rcv.next, count));
      model := model.(rcv := AcceptBytes(model.rcv, seg, window));
      if HasFin(segment.flags) && WrappingAdd(segment.sequence, |segment.payload|) == rcv.next && count < window {
        FinishPeer(now, cfg);
      }
    }

    /** In-order delivery: only the part that starts at the expected position is taken. */
    method ReceiveData(segment: Segment, now: Time, cfg: Config, ghost seg: Seg)
      requires Valid(cfg) && Carries(segment, seg) && |segment.payload| < 0x1_0000
      requires -0x4000_0000 <= seg.pos - model.rcv.next <= 0x4000_0000
      modifies this
      ensures Matches() && model == TcpModel.ReceiveData(old(model), seg, now, cfg)
    {
      hide Inv, SendMatches, Wrap, Before, WrappingSub, HasFin, PeerFinished, AcceptBytes;
      BeforeIsLess(model.rcv.next, seg.pos);
      WrapSub(model.rcv.next, seg.pos);
      ReceiveRoom(model, cfg);
      if segment.payload == [] && !HasFin(segment.flags) { return; }
      ctl := ctl.(ackPending := true);
      model := WantAck(model);
      if rcv.eof || !(state.Established? || state.FinWait1? || state.FinWait2?) { return; }
      if Before(rcv.next, segment.sequence) { return; }
      var skip := WrappingSub(rcv.next, segment.sequence);
      if skip > |segment.payload| { return; }
      TakeData(segment, skip, now, cfg, seg);
    }

    // -------------------------------------------------------------- segment arrival

    /** The peer's SYN-ACK is accepted. */
    method AcceptSynAck(segment: Segment, now: Time, cfg: Config, ghost seg: Seg)
      requires Matches() && Carries(segment, seg) && cfg.Valid() && FlowInv(cong, rtt, cfg)
      requires SenderInv(SynReceived, model.snd, cfg)
      requires seg.ack == model.snd.sent && model.snd.sent != model.snd.una
      modifies this
      ensures Matches() && model == Establish(old(model), seg, now, cfg)
    {
      WrapAdd(seg.pos, 1);
      hide Wrap, SenderInv, FlowInv, TcpModel.Acknowledge, SendMatches;
      rcv := rcv.(next := WrappingAdd(segment.sequence, 1));
      peer := PeerView(segment.window, segment.sequence, segment.acknowledgment, MssOrDefault(segment.mss));
      model := model.(rcv := model.rcv.(known := true, irs := seg.pos, next := seg.pos + 1), peer := peer);
      Acknowledge(segment, now, cfg, seg, SynReceived);
      state := Established;
      ctl := ctl.(phaseDeadline := None, ackPending := true);
      model := model.(state := state, ctl := ctl);
    }

    method SynSentInput(segment: Segment, now: Time, cfg: Config, ghost seg: Seg)
      requires Valid(cfg) && state.SynSent? && seg == Place(model, segment) && |segment.payload| < 0x1_0000
      modifies this
      ensures Matches() && model == InputSynSent(old(model), seg, now, cfg)
    {
      SenderMarks(model.state, model.snd, cfg);
      SenderStates(model.state, model.snd, cfg);
      WrapInjective(seg.ack, model.snd.sent);
      WrapInjective(model.snd.sent, model.snd.una);
      WrapAdd(seg.pos, 1);
      assert cfg.Valid() && FlowInv(cong, rtt, cfg);
      hide Wrap, HasRst, HasAck, HasSyn, HasFin, WithoutSyn, TcpModel.Fail, Inv, Establish, SenderInv, FlowInv;
      hide TcpModel.ReceiveData, UnwrapAck, UnwrapSequence, Mirror, PayloadBytes;
      var validAck := HasAck(segment.flags) && segment.acknowledgment == snd.sent && snd.sent != snd.una;
      if HasRst(segment.flags) {
        if validAck { Fail(Reset, cfg); }
        return;
      }
      if !validAck || !HasSyn(segment.flags) || HasFin(segment.flags) { return; }
      EstablishedInv(model, seg, now, cfg);
      EstablishedPosition(model, seg, now, cfg);
      AcceptSynAck(segment, now, cfg, seg);
      if segment.payload != [] {
        var data := segment.(sequence := WrappingAdd(segment.sequence, 1), flags := WithoutSyn(segment.flags));
        ReceiveData(data, now, cfg, seg.(pos := seg.pos + 1, flags := WithoutSyn(seg.flags)));
      }
    }

    /** Arrival of a segment on a synchronized connection, decided by 32-bit arithmetic. */
    method SynchronizedInput(segment: Segment, now: Time, cfg: Config, ghost seg: Seg)
      requires Valid(cfg) && seg == Place(model, segment) && |segment.payload| < 0x1_0000
      requires !state.IsTerminal() && !state.SynSent? && !state.TimeWait?
      modifies this
      ensures Matches() && model == InputSynchronized(old(model), seg, now, cfg)
    {
      hide Inv, Wrap, Before, WrappingSub, WrappingAdd, AsI32, Acceptable, Mirror, PayloadBytes;
      hide HasRst, HasAck, HasSyn, HasFin, TcpModel.Fail, InputAcknowledged, ResendSyn;
      assert snd.sent == Wrap(model.snd.sent);
      hide SendMatches;
      PlaceFacts(model, segment);
      AcceptableNear(model.rcv, seg, cfg);
      assert Carries(segment, seg);
      hide Place;
      if state.SynReceived? && HasSyn(segment.flags) && !HasAck(segment.flags) && !HasRst(segment.flags)
         && WrappingAdd(segment.sequence, 1) == rcv.next {
        RepeatSynAck();
        return;
      }
      var acceptable := IsAcceptable(segment, cfg, seg);
      if !acceptable {
        if !HasRst(segment.flags) { RequestAck(); }
        return;
      }
      if HasRst(segment.flags) {
        if segment.sequence == rcv.next { Fail(Reset, cfg); } else { RequestAck(); }
        return;
      }
      if HasSyn(segment.flags) { RequestAck(); return; }
      if !HasAck(segment.flags) { return; }
      if Before(snd.sent, segment.acknowledgment) { RequestAck(); return; }
      AcknowledgedInput(segment, now, cfg, seg);
    }

    /** The window test of section 3.10.7.4 of RFC 9293, on the signed 32-bit difference. */
    method IsAcceptable(segment: Segment, cfg: Config, ghost seg: Seg) returns (acceptable: bool)
      requires Matches() && !state.SynSent? && seg == Place(model, segment)
      ensures acceptable == Acceptable(model.rcv, seg, cfg)
    {
      hide SendMatches, Wrap, WrappingSub, AsI32, HasSyn, HasFin;
      PlaceFacts(model, segment);
      var window := Min(cfg.receiveCapacity - |rcv.buffer|, cfg.receiveWindowLimit);
      var relative := AsI32(WrappingSub(segment.sequence, rcv.next));
      var length := SequenceLength(segment.flags, segment.payload);
      acceptable := if length == 0 then relative == 0 || 0 < relative < window
                    else window > 0 && relative < window && relative + length > 0;
    }

    method RequestAck()
      requires Matches()
      modifies `ctl, `model
      ensures Matches() && model == WantAck(old(model))
    {
      ctl := ctl.(ackPending := true);
      model := WantAck(model);
    }

    /** A repeated SYN makes the SYN-ACK due again; its retry count and timing marks stay. */
    method RepeatSynAck()
      requires Matches()
      modifies `snd, `model
      ensures Matches() && model == ResendSyn(old(model))
    {
      if snd.flights != [] {
        snd := snd.(flights := snd.flights[0 := snd.flights[0].(lastSent := None)]);
        ghost var c := model;
        model := ResendSyn(model);
        PayloadSame(c.snd.flights, model.snd.flights);
      }
    }

    method AcknowledgedInput(segment: Segment, now: Time, cfg: Config, ghost seg: Seg)
      requires Valid(cfg) && Carries(segment, seg) && |segment.payload| < 0x1_0000
      requires !state.IsTerminal() && !state.SynSent?
      requires model.snd.sent - 0x8000_0000 < seg.ack <= model.snd.sent
      requires -0x4000_0000 <= seg.pos - model.rcv.next <= 0x4000_0000
      modifies this
      ensures Matches() && model == InputAcknowledged(old(model), seg, now, cfg)
    {
      hide Wrap, Inv, SenderInv, FlowInv, TcpModel.Acknowledge, TcpModel.ReceiveData, Mirror, PayloadBytes;
      AcknowledgedFacts(model, seg, now, cfg);
      ghost var phase := state;
      if state.SynReceived? {
        if segment.acknowledgment != snd.sent || snd.sent == snd.una { return; }
        state := Established;
        ctl := ctl.(phaseDeadline := None);
        model := model.(state := state, ctl := ctl);
      }
      Acknowledge(segment, now, cfg, seg, phase);
      if state.IsTerminal() { return; }
      ReceiveData(segment, now, cfg, seg);
    }

    method TimeWaitInput(segment: Segment, now: Time, cfg: Config, ghost seg: Seg)
      requires Matches() && state.TimeWait? && seg == Place(model, segment) && |segment.payload| < 0x1_0000
      modifies `ctl, `model
      ensures Matches() && model == InputTimeWait(old(model), seg, now, cfg)
    {
      var length := SequenceLength(segment.flags, segment.payload);
      WrapAdd(seg.pos, length);
      WrapInjective(seg.pos + length, model.rcv.next);
      hide Wrap, SendMatches, HasRst, HasFin, Place;
      // A reset is ignored here so that it cannot cut the wait short.
      if !HasRst(segment.flags) {
        RequestAck();
        if HasFin(segment.flags) && WrappingAdd(segment.sequence, length) == rcv.next {
          ctl := ctl.(phaseDeadline := Some(LaterBy(now, cfg.timeWait)));
          model := model.(ctl := ctl);
        }
      }
    }

    /** Any segment whatever: the 32-bit engine takes the step of the unbounded model. */
    method Input(segment: Segment, now: Time, cfg: Config)
      requires Valid(cfg) && |segment.payload| < 0x1_0000
      modifies this
      ensures Valid(cfg) && model == TcpModel.Input(old(model), Place(old(model), segment), now, cfg)
    {
      ghost var seg := Place(model, segment);
      InputInv(model, seg, now, cfg);
      hide Inv, SendMatches, ReceiveMatches, Place, InputSynSent, InputTimeWait, InputSynchronized, Extends;
      if state.IsTerminal() {
      } else if state.SynSent? {
        SynSentInput(segment, now, cfg, seg);
      } else if state.TimeWait? {
        TimeWaitInput(segment, now, cfg, seg);
      } else {
        SynchronizedInput(segment, now, cfg, seg);
      }
    }

    // -------------------------------------------------------------- transmission

    method StartFlight(flags: byte, payload: seq<byte>, persist: bool, now: Time)
      requires Matches()
      modifies `snd, `model
      ensures Matches() && model == TcpModel.StartFlight(old(model), flags, payload, persist, now)
    {
      var flight := Record(snd.next, flags, payload, now, None, 0, rtt.rto, persist, true);
      ghost var g := NewFlight(model.snd, model.rtt, flags, payload, persist, now);
      ImageEnd(g);
      PayloadAppend(model.snd.flights, g);
      hide Wrap, SequenceLength;
      snd := snd.(flights := snd.flights + [flight],
                  flightPayload := snd.flightPayload + |payload|,
                  next := flight.End());
      model := TcpModel.StartFlight(model, flags, payload, persist, now);
    }

    /** Turns queued bytes, or the end of the stream, into a flight if the windows allow it. */
    method Prepare(now: Time, cfg: Config)
      requires Valid(cfg)
      modifies this
      ensures Valid(cfg) && model == TcpModel.Prepare(old(model), now, cfg)
    {
      hide SenderInv, ReceiverInv, FlowInv, Wrap, PayloadBytes, PrepareData, TcpModel.StartFlight;
      PrepareInv(model, now, cfg);
      SenderMarks(model.state, model.snd, cfg);
      hide Inv, Extends;
      if !state.IsOpen() || |snd.flights| >= cfg.maxInflight
         || (snd.flights != [] && Last(snd.flights).transmissions == 0) {
        return;
      }
      if snd.queued != [] {
        PrepareQueued(now, cfg);
      } else if snd.flights == [] && snd.closed {
        if peer.window > 0 {
          var fin := if state.CloseWait? then LastAck else FinWait1;
          StartFlight(FIN + ACK, [], false, now);
          state := fin;
          model := model.(state := fin);
        } else if now >= ctl.windowProbeAt {
          ctl := ctl.(probePending := true);
          model := model.(ctl := ctl);
        }
      }
    }

    /** After an idle period the congestion window starts again from its initial value. */
    method RestartIdle(now: Time, cfg: Config)
      requires Matches()
      modifies `cong
      ensures cong == AfterIdle(model, now, cfg)
      ensures snd.flights == [] <==> model.snd.flights == []
    {
      hide Wrap, PayloadBytes, InitialCwnd;
      if snd.flights == [] && cong.lastDataSent.Some? && now >= LaterBy(cong.lastDataSent.value, rtt.rto) {
        cong := cong.(cwnd := Min(cong.cwnd, InitialCwnd(cong, peer, cfg)), credit := 0);
      }
    }

    method PrepareQueued(now: Time, cfg: Config)
      requires Matches() && cfg.Valid() && snd.queued != []
      requires 0 <= model.snd.next - model.snd.una < 0x8000_0000
      modifies `snd, `cong, `model
      ensures Matches() && model == PrepareData(old(model), now, cfg)
    {
      hide Wrap, WrappingSub, PayloadBytes, AfterIdle, SendMss, TcpModel.StartFlight, NewFlight, Mirror;
      WrapSub(model.snd.next, model.snd.una);
      RestartIdle(now, cfg);
      var persist := peer.window == 0 && snd.flights == [];
      var reserved := WrappingSub(snd.next, snd.una);
      var available := if persist then 1 else Monus(Min(cong.cwnd, peer.window), reserved);
      var n := Min(|snd.queued|, Min(SendMss(peer, cfg), available));
      model := model.(cong := cong);
      if n == 0 { return; }
      var payload := snd.queued[..n];
      snd := snd.(queued := snd.queued[n..]);
      model := model.(snd := model.snd.(queued := snd.queued));
      StartFlight(ACK + PSH, payload, persist, now);
    }

    /** Rechecks both windows before bytes never submitted leave; what no longer fits is requeued. */
    method Admit(index: nat, now: Time, ghost cfg: Config) returns (chosen: Option<nat>)
      requires Valid(cfg) && ChooseFlight(model.snd, now) == Some(index) && index < |snd.flights|
      modifies `snd, `ctl, `model
      ensures Valid(cfg) && Plan(model, chosen) == TcpModel.Admit(old(model), index, now)
      ensures chosen.Some? ==> chosen.value < |snd.flights|
    {
      hide Inv, Extends, Wrap, WrappingSub, CutFlight, PayloadBytes, HasSyn, HasFin;
      AdmitInv(model, index, now, cfg);
      AdmitFacts(model, index, now, cfg);
      assert snd.flights[index] == Image(model.snd.flights[index]);
      var f := snd.flights[index];
      if f.transmissions == 0 && !HasSyn(f.flags) {
        var inflight := WrappingSub(snd.sent, snd.una);
        var persist := peer.window == 0 && inflight == 0;
        var available := if persist then 1 else Monus(Min(cong.cwnd, peer.window), inflight);
        if available == 0 || (persist && HasFin(f.flags)) {
          if persist && now >= ctl.windowProbeAt {
            ctl := ctl.(probePending := true);
            model := model.(ctl := ctl);
          }
          return None;
        }
        Cut(index, available, persist);
      }
      return Some(index);
    }

    /** Returns the bytes of the newest flight beyond `available` to the queue. */
    method Trim(available: nat)
      requires Matches() && snd.flights != [] && 0 < available < |Last(snd.flights).payload| < 0x8000_0000
      requires Last(model.snd.flights).End() == model.snd.next
      requires !HasSyn(Last(snd.flights).flags) && !HasFin(Last(snd.flights).flags)
      modifies `snd, `model
      ensures Matches() && model == old(model).(snd := TrimLast(old(model.snd), available))
    {
      hide Wrap, WrappingSub, WrappingAdd, PayloadBytes, HasSyn, HasFin;
      var index := |snd.flights| - 1;
      ghost var g := model.snd.flights[index];
      var f := snd.flights[index];
      assert f == Image(g);
      var tail := f.payload[available..];
      f := f.(payload := f.payload[..available]);
      ghost var g' := g.(payload := g.payload[..available]);
      ImageEnd(g');
      WrapSub(model.snd.next, g'.End());
      PayloadUpdate(model.snd.flights, index, g');
      var queued := Requeue(tail, snd.queued);
      var removed := WrappingSub(snd.next, f.End());
      snd := snd.(queued := queued, flightPayload := snd.flightPayload - removed, next := f.End(),
                  flights := snd.flights[index := f]);
      model := model.(snd := TrimLast(model.snd, available));
    }

    method Cut(index: nat, available: nat, persist: bool)
      requires Matches() && available > 0 && index == |snd.flights| - 1
      requires Last(model.snd.flights).End() == model.snd.next && |snd.flights[index].payload| < 0x8000_0000
      requires snd.flights[index].payload != [] ==>
                !HasSyn(snd.flights[index].flags) && !HasFin(snd.flights[index].flags)
      modifies `snd, `model
      ensures Matches() && |snd.flights| == old(|snd.flights|)
      ensures model == old(model).(snd := CutFlight(old(model.snd), index, available, persist))
    {
      hide Wrap, PayloadBytes, HasSyn, HasFin;
      if |snd.flights[index].payload| > available { Trim(available); }
      ghost var s := model.snd;
      PayloadUpdate(s.flights, index, s.flights[index].(persist := persist));
      snd := snd.(flights := snd.flights[index := snd.flights[index].(persist := persist)]);
      model := model.(snd := s.(flights := s.flights[index := s.flights[index].(persist := persist)]));
    }

    method AdjustCongestion(f: Flight, inflight: nat, now: Time, cfg: Config, ghost g: TcpModel.Flight)
      requires f == Image(g)
      modifies `cong
      ensures cong == AfterSubmission(old(cong), peer, g, inflight, now, cfg)
    {
      hide Wrap, HasSyn;
      if f.transmissions > 0 {
        cong := cong.(synRetransmitted := cong.synRetransmitted || HasSyn(f.flags));
        if !f.persist && f.lastSent.Some? && now >= LaterBy(f.lastSent.value, f.rto) {
          var mss := SendMss(peer, cfg);
          // Repeated timeouts of the same flight keep the threshold.
          if f.transmissions == 1 { cong := cong.(ssthresh := Max(inflight / 2, 2 * mss)); }
          cong := cong.(cwnd := Min(mss, cfg.maxCwnd), credit := 0);
        }
      }
      if f.payload != [] { cong := cong.(lastDataSent := Some(now)); }
    }

    /** Bookkeeping after the device has accepted flight `index`. */
    method RecordSubmission(index: nat, now: Time, cfg: Config) returns (again: bool)
      requires Valid(cfg) && index < |snd.flights|
      modifies `snd, `cong, `rtt, `model
      ensures Matches() && model == Submitted(old(model), index, now, cfg)
      ensures again == (old(model).snd.flights[index].transmissions > 0)
    {
      ghost var c := model;
      ghost var g := c.snd.flights[index];
      hide Inv, Wrap, WrappingSub, Before, SequenceLength, AfterSubmission, PayloadBytes, Submitted, MarkSubmitted,
           Resubmitted;
      SubmissionFacts(c, index, cfg);
      SubmittedShape(c, index, now, cfg);
      var f := snd.flights[index];
      assert f == Image(g);
      again := f.transmissions > 0;
      AdjustCongestion(f, WrappingSub(snd.sent, snd.una), now, cfg, g);
      var flights := MarkRecord(snd.flights, index, now, cfg, c.snd.flights);
      SubmittedMatches(snd, c, flights, index, now, cfg);
      hide Mirror, SendMatches;
      if again { rtt := rtt.(rto := flights[index].rto); }
      snd := snd.(flights := flights, sent := if Before(snd.sent, f.End()) then f.End() else snd.sent);
      model := Submitted(c, index, now, cfg);
    }

    /** One call of the engine's output step. `answer` is what the device did; `segment` is what it
        was asked to send, if anything. */
    method Transmit(now: Time, cfg: Config, answer: DeviceAnswer, local: Endpoint, remote: Endpoint)
      returns (r: Result<Progress, DeviceAnswer>, segment: Option<Segment>)
      requires Valid(cfg)
      modifies this
      ensures Valid(cfg)
      ensures model == TcpModel.Transmit(old(model), now, cfg, if answer.Taken? then Accepted else Refused)
      ensures
        var p := PlanTransmit(old(model), now, cfg);
        && ValidPlan(p)
        && if old(model).state.IsTerminal() || !Emits(p) || answer.NoFrame? then
             segment == None && r == Ok(Progress(false, false))
           else
             && segment == Some(ToWire(Emission(p, cfg), local, remote))
             && segment.value.source == local && segment.value.destination == remote
             && r == match answer
                     case Taken =>
                       Ok(Progress(true, p.index.Some? && p.conn.snd.flights[p.index.value].transmissions > 0))
                     case Blocked => Ok(Progress(false, false))
                     case _ => Err(answer)
    {
      TransmitInv(model, now, cfg, if answer.Taken? then Accepted else Refused);
      PlanInv(model, now, cfg);
      hide Inv, Extends, Emission, Submitted, ToWire, SendMatches, ReceiveMatches;
      if state.IsTerminal() { return Ok(Progress(false, false)), None; }
      var index := MakePlan(now, cfg);
      ghost var p := Plan(model, index);
      if index.None? && !ctl.ackPending && !ctl.probePending { return Ok(Progress(false, false)), None; }
      if answer.NoFrame? { return Ok(Progress(false, false)), None; }
      var wire := Describe(index, cfg, local, remote);
      segment := Some(wire);
      match answer
      case Blocked => return Ok(Progress(false, false)), segment;
      case Taken =>
        var again := Settle(index, now, cfg);
        return Ok(Progress(true, again)), segment;
      case _ => return Err(answer), segment;
    }

    method MakePlan(now: Time, cfg: Config) returns (index: Option<nat>)
      requires Valid(cfg)
      modifies this
      ensures Valid(cfg) && Plan(model, index) == PlanTransmit(old(model), now, cfg)
      ensures index.Some? ==> index.value < |snd.flights|
    {
      hide Inv, Wrap, TcpModel.Prepare, TcpModel.Admit, Extends;
      Prepare(now, cfg);
      index := None;
      if snd.flights != [] && snd.flights[0].Due(now) {
        index := Some(0);
      } else if snd.flights != [] && Last(snd.flights).transmissions == 0 {
        index := Some(|snd.flights| - 1);
      }
      if index.Some? { index := Admit(index.value, now, cfg); }
    }

    /** The segment to build: the chosen flight, or a bare acknowledgment or window probe. */
    method Describe(index: Option<nat>, cfg: Config, local: Endpoint, remote: Endpoint) returns (wire: Segment)
      requires Valid(cfg) && (index.Some? ==> index.value < |snd.flights|)
      ensures ValidPlan(Plan(model, index)) && wire == ToWire(Emission(Plan(model, index), cfg), local, remote)
      ensures wire.source == local && wire.destination == remote
    {
      assert |rcv.buffer| <= cfg.receiveCapacity <= 0xffff;
      WrapSub(model.snd.sent, 1);
      hide Inv, Wrap, HasSyn;
      var window: u16 := Min(cfg.receiveCapacity - |rcv.buffer|, cfg.receiveWindowLimit);
      if index.Some? {
        var f := snd.flights[index.value];
        assert f == Image(model.snd.flights[index.value]);
        wire := Segment(local, remote, f.sequence, rcv.next, f.flags, window,
                        if HasSyn(f.flags) then Some(cfg.mss) else None, f.payload);
      } else {
        var sequence := if ctl.probePending && !ctl.ackPending then WrappingSub(snd.sent, 1) else snd.sent;
        wire := Segment(local, remote, sequence, rcv.next, ACK, window, None, []);
      }
    }

    method Settle(index: Option<nat>, now: Time, cfg: Config) returns (again: bool)
      requires Valid(cfg) && (index.Some? ==> index.value < |snd.flights|)
      modifies this
      ensures Matches() && ValidPlan(Plan(old(model), index))
      ensures model == Commit(Plan(old(model), index), now, cfg)
      ensures again == (index.Some? && old(model).snd.flights[index.value].transmissions > 0)
    {
      hide Inv, Wrap, Submitted, AdvertisedWindow;
      again := false;
      var flags := ACK;
      if index.Some? {
        flags := snd.flights[index.value].flags;
        again := RecordSubmission(index.value, now, cfg);
      }
      if HasAck(flags) { ctl := ctl.(ackPending := false); }
      if ctl.probePending { ctl := ctl.(probePending := false, windowProbeAt := LaterBy(now, rtt.rto)); }
      model := model.(ctl := ctl);
    }
  }
}
