/**
 What an arriving segment does to a connection, in terms of positions: which bytes are taken, when the
 peer's FIN counts, how the state moves, what a reset does and what is merely answered.
 */
module TcpReception {
  import opened Prelude
  import opened SequenceNumbers
  import opened TcpSegment
  import opened TcpModel
  import opened TcpFlights
  import opened TcpInvariants

  // ---------------------------------------------------------------- the receive window

  /** The first position beyond what may be received: free buffer space, but no more than the limit. */
  function Edge(r: Receiver, cfg: Config): int {
    r.next + Min(cfg.receiveCapacity - |r.buffer|, cfg.receiveWindowLimit)
  }

  /** Some position of the segment lies in the window; an empty segment lies in it or at its start. */
  predicate InWindow(r: Receiver, seg: Seg, cfg: Config) {
    var end := seg.pos + SequenceLength(seg.flags, seg.payload);
    if seg.pos == end then seg.pos == r.next || r.next < seg.pos < Edge(r, cfg)
    else Max(seg.pos, r.next) < Min(end, Edge(r, cfg))
  }

  predicate Within(x: int, lo: int, hi: int) { lo <= x < hi }

  /** The acceptance test of section 3.10.7.4 of RFC 9293 decides exactly that. */
  lemma AcceptableIff(r: Receiver, seg: Seg, cfg: Config)
    ensures Acceptable(r, seg, cfg) <==> InWindow(r, seg, cfg)
    ensures
      var end := seg.pos + SequenceLength(seg.flags, seg.payload);
      seg.pos < end ==>
        (InWindow(r, seg, cfg) <==> exists x :: Within(x, seg.pos, end) && Within(x, r.next, Edge(r, cfg)))
  {
    hide HasSyn, HasFin;
    var end := seg.pos + SequenceLength(seg.flags, seg.payload);
    if Max(seg.pos, r.next) < Min(end, Edge(r, cfg)) {
      var x := Max(seg.pos, r.next);
      assert Within(x, seg.pos, end) && Within(x, r.next, Edge(r, cfg));
    }
  }

  // ---------------------------------------------------------------- bytes and FIN

  /** The byte at position `x` of a run of bytes that starts at position `lo`. */
  function At(run: seq<byte>, lo: int, x: int): Option<byte> {
    if lo <= x < lo + |run| then Some(run[x - lo]) else None
  }

  /** The segment starts at or before the expected position and reaches it. */
  predicate InOrder(r: Receiver, seg: Seg) { seg.pos <= r.next <= seg.pos + |seg.payload| }

  /** Where taking payload stops: at the end of the payload or of the window. */
  function TakenEnd(r: Receiver, seg: Seg, cfg: Config): int { Min(seg.pos + |seg.payload|, Edge(r, cfg)) }

  /** The peer's FIN counts if everything before it is taken and its own position is in the window. */
  predicate FinTaken(r: Receiver, seg: Seg, cfg: Config) {
    HasFin(seg.flags) && InOrder(r, seg) && seg.pos + |seg.payload| < Edge(r, cfg)
  }

  /** `q` is `r` with the segment's bytes from the expected position up to where taking stops, each at
      its own position, and the FIN if it counts. */
  predicate Took(r: Receiver, seg: Seg, q: Receiver, cfg: Config)
    requires InOrder(r, seg)
  {
    var end, fin := TakenEnd(r, seg, cfg), FinTaken(r, seg, cfg);
    && r.next <= end && q.next == end + (if fin then 1 else 0) && q.eof == fin
    && q.known == r.known && q.irs == r.irs && q.delivered == r.delivered
    && r.buffer <= q.buffer && |q.buffer| == |r.buffer| + (end - r.next)
    && r.accepted <= q.accepted && |q.accepted| == |r.accepted| + (end - r.next)
    && forall x :: r.next <= x < end ==>
         && At(q.buffer, r.next - |r.buffer|, x) == At(seg.payload, seg.pos, x)
         && At(q.accepted, r.next - |r.accepted|, x) == At(seg.payload, seg.pos, x)
  }

  predicate Receives(state: TcpState) { state.Established? || state.FinWait1? || state.FinWait2? }

  lemma BytesTaken(r: Receiver, seg: Seg, cfg: Config)
    requires InOrder(r, seg) && |r.buffer| <= cfg.receiveCapacity
    ensures
      var q := AcceptBytes(r, seg, AdvertisedWindow(r, cfg));
      var end := TakenEnd(r, seg, cfg);
      && q == r.(next := end, buffer := q.buffer, accepted := q.accepted)
      && r.next <= end
      && r.buffer <= q.buffer && |q.buffer| == |r.buffer| + (end - r.next)
      && r.accepted <= q.accepted && |q.accepted| == |r.accepted| + (end - r.next)
      && forall x :: r.next <= x < end ==>
           && At(q.buffer, r.next - |r.buffer|, x) == At(seg.payload, seg.pos, x)
           && At(q.accepted, r.next - |r.accepted|, x) == At(seg.payload, seg.pos, x)
  {}

  lemma DataTaken(c: Conn, seg: Seg, now: Time, cfg: Config)
    requires cfg.Valid() && |c.rcv.buffer| <= cfg.receiveCapacity && !c.rcv.eof && Receives(c.state)
    requires InOrder(c.rcv, seg)
    ensures Took(c.rcv, seg, ReceiveData(c, seg, now, cfg).rcv, cfg)
  {
    hide HasFin, AcceptBytes;
    BytesTaken(c.rcv, seg, cfg);
  }

  lemma DataRefused(c: Conn, seg: Seg, now: Time, cfg: Config)
    requires c.rcv.eof || !Receives(c.state) || !InOrder(c.rcv, seg)
    ensures ReceiveData(c, seg, now, cfg).rcv == c.rcv && ReceiveData(c, seg, now, cfg).state == c.state
  {
    hide HasFin;
  }

  // ---------------------------------------------------------------- acknowledgment

  /** Where the acknowledgment of the connection's own FIN and the arrival of the peer's lead (figure 5 of
      RFC 9293). */
  function Moved(state: TcpState, acked: bool, fin: bool): TcpState {
    match state
    case Established => if fin then CloseWait else Established
    case FinWait1 =>
      if acked then (if fin then TimeWait else FinWait2) else if fin then Closing else FinWait1
    case FinWait2 => if fin then TimeWait else FinWait2
    case Closing => if acked then TimeWait else Closing
    case LastAck => if acked then Closed else LastAck
    case _ => state
  }

  lemma FinAcked(c: Conn, ack: int, now: Time, cfg: Config)
    requires cfg.Valid() && FinPhase(c.snd) && c.state.IsFinishing() && c.snd.una < ack <= c.snd.sent
    ensures
      var d := Advance(c, ack, now, cfg);
      && d.state == Moved(c.state, true, false)
      && d.ctl == (if d.state.TimeWait? then
                     c.ctl.(closeDeadline := None, phaseDeadline := Some(LaterBy(now, cfg.timeWait)))
                   else if d.state.Closed? then c.ctl.(closeDeadline := None, ackPending := false) else c.ctl)
  {
    var f := c.snd.flights[0];
    assert c.snd.flights == [f];
    SweepSingle(f, ack, now);
    hide SweepFrom, UpdateRto, GrowWindow, InitialCwnd, LaterBy;
  }

  lemma AckMoves(c: Conn, seg: Seg, now: Time, cfg: Config)
    requires Inv(c, cfg) && !c.state.IsSynchronizing() && !c.state.IsTerminal() && seg.ack <= c.snd.sent
    ensures
      var d := Acknowledge(c, seg, now, cfg);
      && d.state == Moved(c.state, c.snd.una < seg.ack, false) && d.rcv == c.rcv
      && d.ctl == (if d.state == c.state || d.state.FinWait2? then c.ctl
                   else if d.state.TimeWait? then
                     c.ctl.(closeDeadline := None, phaseDeadline := Some(LaterBy(now, cfg.timeWait)))
                   else c.ctl.(closeDeadline := None, ackPending := false))
  {
    hide Advance, UpdateWindow, FlowInv, ReceiverInv, DataRun, AllSound, PayloadBytes, LaterBy;
    UpdateWindowInv(c, seg, cfg);
    var u := UpdateWindow(c, seg);
    if seg.ack > c.snd.una {
      AdvanceFlow(u, seg.ack, now, cfg);
      if c.state.IsFinishing() { FinAcked(u, seg.ack, now, cfg); }
    }
  }

  // ---------------------------------------------------------------- synchronized connections

  /** A segment that neither resets nor restarts, lies in the window and acknowledges only what was sent. */
  predicate Regular(c: Conn, seg: Seg, cfg: Config) {
    && InWindow(c.rcv, seg, cfg) && HasAck(seg.flags) && !HasRst(seg.flags) && !HasSyn(seg.flags)
    && seg.ack <= c.snd.sent
    && (c.state.SynReceived? ==> seg.ack == c.snd.sent && c.snd.sent != c.snd.una)
  }

  predicate Synchronized(state: TcpState) {
    !state.SynSent? && !state.TimeWait? && !state.IsTerminal()
  }

  lemma RegularInput(c: Conn, seg: Seg, now: Time, cfg: Config)
    requires Synchronized(c.state) && Regular(c, seg, cfg)
    ensures
      var d := if c.state.SynReceived? then c.(state := Established, ctl := c.ctl.(phaseDeadline := None)) else c;
      var e := Acknowledge(d, seg, now, cfg);
      Input(c, seg, now, cfg) == if e.state.IsTerminal() then e else ReceiveData(e, seg, now, cfg)
  {
    hide Acceptable, InWindow, Acknowledge, ReceiveData, HasSyn, HasAck, HasFin, HasRst;
    AcceptableIff(c.rcv, seg, cfg);
  }

  /** The connection once the acknowledgment of a regular segment has been taken in. */
  lemma RegularAck(c: Conn, seg: Seg, now: Time, cfg: Config)
    requires Inv(c, cfg) && Synchronized(c.state) && Regular(c, seg, cfg)
    ensures
      var d := if c.state.SynReceived? then c.(state := Established, ctl := c.ctl.(phaseDeadline := None)) else c;
      var e := Acknowledge(d, seg, now, cfg);
      && Inv(e, cfg) && e.rcv == c.rcv && e.snd.una == Max(c.snd.una, seg.ack) && e.snd.sent == c.snd.sent
      && e.state == Moved(d.state, c.snd.una < seg.ack, false)
      && e.ctl == (if e.state == d.state || e.state.FinWait2? then d.ctl
                   else if e.state.TimeWait? then
                     d.ctl.(closeDeadline := None, phaseDeadline := Some(LaterBy(now, cfg.timeWait)))
                   else d.ctl.(closeDeadline := None, ackPending := false))
  {
    hide Acknowledge, InWindow, SenderInv, FlowInv, LaterBy, HasSyn, HasAck, HasRst;
    SenderMarks(c.state, c.snd, cfg);
    if c.state.SynReceived? {
      SynAcknowledgedInv(c, seg, now, cfg);
      AcknowledgeSynInv(c.(state := Established, ctl := c.ctl.(phaseDeadline := None)), seg, now, cfg);
    } else {
      AcknowledgeInv(c, seg, now, cfg);
      AckMoves(c, seg, now, cfg);
    }
  }

  predicate TakesBytes(c: Conn, seg: Seg, cfg: Config) {
    && Synchronized(c.state) && Regular(c, seg, cfg) && InOrder(c.rcv, seg)
    && (Receives(c.state) || c.state.SynReceived?)
  }

  /** The receive side after any segment: a regular one in order adds exactly the bytes between the expected
      position and the end of the payload or of the window; nothing else adds any. */
  lemma ReceptionExact(c: Conn, seg: Seg, now: Time, cfg: Config)
    requires Inv(c, cfg) && !c.state.SynSent?
    ensures
      var d := Input(c, seg, now, cfg);
      if TakesBytes(c, seg, cfg) then Took(c.rcv, seg, d.rcv, cfg)
      else d.rcv == if d.state.IsAborted() && !c.state.IsTerminal() then c.rcv.(buffer := []) else c.rcv
  {
    hide InWindow, Acknowledge, ReceiveData, HasSyn, HasAck, HasFin, HasRst, Took, Acceptable, SenderInv, FlowInv;
    if Synchronized(c.state) {
      AcceptableIff(c.rcv, seg, cfg);
      if Regular(c, seg, cfg) {
        RegularInput(c, seg, now, cfg);
        RegularAck(c, seg, now, cfg);
        RegularReception(c, seg, now, cfg);
      }
    }
  }

  lemma RegularReception(c: Conn, seg: Seg, now: Time, cfg: Config)
    requires Inv(c, cfg) && Synchronized(c.state) && Regular(c, seg, cfg)
    ensures
      var d := Input(c, seg, now, cfg);
      && !d.state.IsAborted()
      && if TakesBytes(c, seg, cfg) then Took(c.rcv, seg, d.rcv, cfg) else d.rcv == c.rcv
  {
    hide InWindow, Acknowledge, ReceiveData, HasSyn, HasAck, HasFin, HasRst, Took, SenderInv, FlowInv, Input, LaterBy;
    RegularInput(c, seg, now, cfg);
    RegularAck(c, seg, now, cfg);
    var d := if c.state.SynReceived? then c.(state := Established, ctl := c.ctl.(phaseDeadline := None)) else c;
    var e := Acknowledge(d, seg, now, cfg);
    if !e.state.IsTerminal() {
      ReceiveDataInv(e, seg, now, cfg);
      if TakesBytes(c, seg, cfg) {
        DataTaken(e, seg, now, cfg);
      } else {
        DataRefused(e, seg, now, cfg);
      }
    }
  }

  lemma FinMoves(c: Conn, seg: Seg, now: Time, cfg: Config)
    requires cfg.Valid() && |c.rcv.buffer| <= cfg.receiveCapacity && !c.rcv.eof && Receives(c.state)
    ensures
      var d := ReceiveData(c, seg, now, cfg);
      var fin := FinTaken(c.rcv, seg, cfg);
      && d.state == Moved(c.state, false, fin)
      && d.ctl == (if fin && c.state.FinWait2? then
                     c.ctl.(ackPending := true, closeDeadline := None,
                            phaseDeadline := Some(LaterBy(now, cfg.timeWait)))
                   else c.ctl.(ackPending := c.ctl.ackPending || seg.payload != [] || HasFin(seg.flags)))
  {
    hide HasFin, AcceptBytes, LaterBy;
    if InOrder(c.rcv, seg) { BytesTaken(c.rcv, seg, cfg); }
  }

  /** The state diagram: how a regular segment moves the state, and that it takes its acknowledgment in. Whatever
      occupies sequence space is acknowledged, and a connection that enters TIME-WAIT waits for its full time. */
  lemma StateMoves(c: Conn, seg: Seg, now: Time, cfg: Config)
    requires Inv(c, cfg) && Synchronized(c.state) && Regular(c, seg, cfg)
    ensures
      var d := Input(c, seg, now, cfg);
      var before := if c.state.SynReceived? then Established else c.state;
      && d.state == Moved(before, c.snd.una < seg.ack, Receives(before) && FinTaken(c.rcv, seg, cfg))
      && d.snd.una == Max(c.snd.una, seg.ack)
      && (d.state.TimeWait? ==> d.ctl.phaseDeadline == Some(LaterBy(now, cfg.timeWait)) && d.ctl.closeDeadline.None?)
      && (c.state.SynReceived? ==> d.ctl.phaseDeadline.None?)
      && (!d.state.Closed? ==>
            (d.ctl.ackPending <==> c.ctl.ackPending || seg.payload != [] || HasFin(seg.flags)))
  {
    hide InWindow, Acknowledge, ReceiveData, HasSyn, HasAck, HasFin, HasRst, SenderInv, FlowInv, Input, LaterBy;
    RegularInput(c, seg, now, cfg);
    RegularAck(c, seg, now, cfg);
    var d := if c.state.SynReceived? then c.(state := Established, ctl := c.ctl.(phaseDeadline := None)) else c;
    var e := Acknowledge(d, seg, now, cfg);
    if !e.state.IsTerminal() {
      ReceiveDataInv(e, seg, now, cfg);
      if Receives(e.state) { FinMoves(e, seg, now, cfg); } else { NoMoves(e, seg, now, cfg); }
    }
  }

  lemma NoMoves(c: Conn, seg: Seg, now: Time, cfg: Config)
    requires !Receives(c.state)
    ensures
      var d := ReceiveData(c, seg, now, cfg);
      && d.state == c.state
      && d.ctl == c.ctl.(ackPending := c.ctl.ackPending || seg.payload != [] || HasFin(seg.flags))
  {
    hide HasFin;
  }

  // ---------------------------------------------------------------- resets and what is merely answered

  /** A reset takes effect exactly if it is at the expected position and in the window or, before that is known,
      acknowledges the SYN; TIME-WAIT ignores it. One elsewhere in the window is answered. */
  lemma ResetExactly(c: Conn, seg: Seg, now: Time, cfg: Config)
    requires Inv(c, cfg) && !c.state.IsTerminal()
    ensures
      var d := Input(c, seg, now, cfg);
      && (d.state.IsAborted() <==> d.state.Reset?)
      && (d.state.Reset? <==>
            && HasRst(seg.flags) && !c.state.TimeWait?
            && if c.state.SynSent? then HasAck(seg.flags) && seg.ack == c.snd.sent && c.snd.sent != c.snd.una
               else seg.pos == c.rcv.next && InWindow(c.rcv, seg, cfg))
      && (HasRst(seg.flags) && !d.state.Reset? ==>
            d == if Synchronized(c.state) && InWindow(c.rcv, seg, cfg) then WantAck(c) else c)
  {
    hide InWindow, Acceptable, InputAcknowledged, Establish, ReceiveData, SenderInv, FlowInv, HasAck, HasFin, HasSyn,
         HasRst;
    AcceptableIff(c.rcv, seg, cfg);
    if c.state.SynSent? {
      if seg.ack == c.snd.sent && c.snd.sent != c.snd.una { SynAckMoves(c, seg, now, cfg); }
    } else if Synchronized(c.state) && seg.ack <= c.snd.sent {
      InputAcknowledgedInv(c, seg, now, cfg);
    }
  }

  lemma SynAckMoves(c: Conn, seg: Seg, now: Time, cfg: Config)
    requires Inv(c, cfg) && c.state.SynSent? && seg.ack == c.snd.sent && c.snd.sent != c.snd.una
    ensures
      var e := Establish(c, seg, now, cfg);
      var data := seg.(pos := seg.pos + 1, flags := WithoutSyn(seg.flags));
      !e.state.IsAborted() && !ReceiveData(e, data, now, cfg).state.IsAborted()
  {
    hide Establish, ReceiveData, SenderInv, ReceiverInv, FlowInv, ControlInv;
    EstablishedInv(c, seg, now, cfg);
    ReceiveDataInv(Establish(c, seg, now, cfg), seg.(pos := seg.pos + 1, flags := WithoutSyn(seg.flags)), now, cfg);
  }

  /** Whatever else is not regular changes nothing: outside the window, with SYN, or acknowledging what was never
      sent, it is answered; without an acknowledgment, or short of the SYN, it is not. */
  lemma MerelyAnswered(c: Conn, seg: Seg, now: Time, cfg: Config)
    requires Inv(c, cfg) && Synchronized(c.state) && !HasRst(seg.flags) && !Regular(c, seg, cfg)
    requires !(c.state.SynReceived? && HasSyn(seg.flags) && !HasAck(seg.flags) && seg.pos + 1 == c.rcv.next)
    ensures
      Input(c, seg, now, cfg)
      == if !InWindow(c.rcv, seg, cfg) || HasSyn(seg.flags) || (HasAck(seg.flags) && c.snd.sent < seg.ack)
         then c.(ctl := c.ctl.(ackPending := true)) else c
  {
    hide InWindow, Acceptable, Acknowledge, ReceiveData, SenderInv, FlowInv, HasAck, HasFin, HasSyn, HasRst;
    AcceptableIff(c.rcv, seg, cfg);
  }

  /** TIME-WAIT lasts: no segment ends it, and the peer's FIN again starts its time afresh. */
  lemma TimeWaitKept(c: Conn, seg: Seg, now: Time, cfg: Config)
    requires c.state.TimeWait?
    ensures
      var d := Input(c, seg, now, cfg);
      && d == c.(ctl := d.ctl)
      && d.ctl == c.ctl.(ackPending := c.ctl.ackPending || !HasRst(seg.flags), phaseDeadline := d.ctl.phaseDeadline)
      && d.ctl.phaseDeadline ==
           if !HasRst(seg.flags) && HasFin(seg.flags)
              && seg.pos + |seg.payload| + (if HasSyn(seg.flags) then 1 else 0) + 1 == c.rcv.next
           then Some(LaterBy(now, cfg.timeWait)) else c.ctl.phaseDeadline
  {
    hide HasSyn, HasFin, HasRst, LaterBy;
  }

  // ---------------------------------------------------------------- the answer to a SYN

  predicate Answers(c: Conn, seg: Seg) {
    && HasSyn(seg.flags) && HasAck(seg.flags) && !HasFin(seg.flags)
    && seg.ack == c.snd.sent && c.snd.sent != c.snd.una
  }

  /** Before the peer's numbers are known exactly a SYN that acknowledges ours counts: it establishes the
      connection, and the bytes it carries are taken up to the window. */
  lemma SynAckTaken(c: Conn, seg: Seg, now: Time, cfg: Config)
    requires Inv(c, cfg) && c.state.SynSent? && !HasRst(seg.flags)
    ensures
      var d := Input(c, seg, now, cfg);
      if Answers(c, seg) then
        var start := Receiver(true, seg.pos, seg.pos + 1, [], false, [], []);
        && d.state.Established? && d.ctl.ackPending && d.ctl.phaseDeadline.None? && d.snd.una == seg.ack
        && d.peer.window == seg.window && d.peer.mss == (if seg.mss.Some? then seg.mss.value else 536)
        && Took(start, seg.(pos := seg.pos + 1, flags := WithoutSyn(seg.flags)), d.rcv, cfg)
      else d == c
  {
    hide Establish, ReceiveData, Took, HasSyn, HasAck, HasFin, HasRst, SenderInv, FlowInv, WithoutSyn;
    if Answers(c, seg) {
      var e := Establish(c, seg, now, cfg);
      var data := seg.(pos := seg.pos + 1, flags := WithoutSyn(seg.flags));
      EstablishedInv(c, seg, now, cfg);
      Opened(c, seg, now, cfg);
      WithoutSynFin(seg.flags);
      DataTaken(e, data, now, cfg);
      FinMoves(e, data, now, cfg);
      ReceiveDataInv(e, data, now, cfg);
      EmptyPayload(e, data, now, cfg);
    }
  }

  lemma WithoutSynFin(flags: byte)
    ensures HasFin(WithoutSyn(flags)) == HasFin(flags)
  {}

  lemma EmptyPayload(c: Conn, seg: Seg, now: Time, cfg: Config)
    ensures seg.payload == [] && !HasFin(seg.flags) ==> ReceiveData(c, seg, now, cfg) == c
    ensures ReceiveData(c, seg, now, cfg).peer == c.peer
  {
    hide HasFin, AcceptBytes;
  }

  lemma Opened(c: Conn, seg: Seg, now: Time, cfg: Config)
    requires Inv(c, cfg) && c.state.SynSent? && seg.ack == c.snd.sent && c.snd.sent != c.snd.una
    ensures
      var e := Establish(c, seg, now, cfg);
      && e.rcv == Receiver(true, seg.pos, seg.pos + 1, [], false, [], []) && e.snd.una == seg.ack
      && e.ctl.ackPending && e.ctl.phaseDeadline.None?
      && e.peer.mss == MssOrDefault(seg.mss) && e.peer.window == seg.window
  {
    hide Acknowledge, Wrap, SenderInv, FlowInv;
    SenderStates(c.state, c.snd, cfg);
    var d := c.(rcv := c.rcv.(known := true, irs := seg.pos, next := seg.pos + 1),
                peer := PeerView(seg.window, Wrap(seg.pos), Wrap(seg.ack), MssOrDefault(seg.mss)));
    AcknowledgeSynInv(d, seg, now, cfg);
    PeerMss(d, seg, now, cfg);
  }

  lemma PeerMss(c: Conn, seg: Seg, now: Time, cfg: Config)
    ensures Acknowledge(c, seg, now, cfg).peer.mss == c.peer.mss
    ensures Acknowledge(c, seg, now, cfg).peer.window in {c.peer.window, seg.window}
  {
    hide SweepFrom, UpdateRto, GrowWindow, InitialCwnd, RestartTimer, AnnouncesWindow, LaterBy;
  }
}
