/**
 Reference model of the TCP connection engine (`src/api/tcp/connection.rs`).

 Positions in the two sequence spaces are unbounded integers here; the engine keeps only their
 32-bit images (module TcpConnection proves that its wrapping arithmetic computes these
 functions). Three kinds of history are recorded beside the engine's own variables: the bytes the
 application has written, the bytes accepted from the peer and handed to the application, and
 every time at which a flight was submitted.
 */
module TcpModel {
  import opened Prelude
  import opened SequenceNumbers
  import opened TcpSegment

  datatype TcpState =
    | SynSent | SynReceived | Established | FinWait1 | FinWait2 | CloseWait | Closing | LastAck
    | TimeWait | Closed | Reset | TimedOut | Failed
  {
    predicate IsTerminal() { Closed? || IsAborted() }

    predicate IsAborted() { Reset? || TimedOut? || Failed? }

    predicate IsSynchronizing() { SynSent? || SynReceived? }

    predicate IsOpen() { Established? || CloseWait? }

    /** The connection's own FIN has been created and is not yet acknowledged. */
    predicate IsFinishing() { FinWait1? || Closing? || LastAck? }

    /** The connection's own FIN has been acknowledged. */
    predicate IsFinished() { FinWait2? || TimeWait? || Closed? }
  }

  datatype Config = Config(
    sendCapacity: nat,
    receiveCapacity: nat,
    receiveWindowLimit: u16,
    initialCwndSegments: nat,
    maxCwnd: nat,
    initialSsthresh: nat,
    maxInflight: nat,
    mtu: nat,
    mss: u16,
    initialRto: Time,
    maxRto: Time,
    maxRetransmits: u32,
    handshakeTimeout: Time,
    sendTimeout: Time,
    closeTimeout: Time,
    timeWait: Time)
  {
    /** The bounds that the pool's constructor enforces. */
    predicate Valid() {
      && 0 < sendCapacity <= 0x4000_0000
      && 0 < receiveCapacity <= 0xffff
      && 0 < receiveWindowLimit
      && 1 <= initialCwndSegments <= 4
      && 0 < maxCwnd <= 0x4000_0000
      && 0 < initialSsthresh <= 0x4000_0000
      && 0 < maxInflight <= 0xffff
      && 68 <= mtu <= 0xffff
      && 0 < mss <= mtu - 40
      && mss <= receiveCapacity
      && SECOND <= initialRto <= maxRto <= DURATION_MAX
      && 0 < handshakeTimeout && 0 < sendTimeout && 0 < closeTimeout && 0 < timeWait
    }
  }

  /** A segment whose positions have been placed in the unbounded sequence spaces. */
  datatype Seg = Seg(
    pos: int, ack: int, flags: byte, window: u16, mss: Option<u16>, payload: seq<byte>)

  /** A retransmittable unit: a SYN, a FIN, or a run of data. `sends` is history. */
  datatype Flight = Flight(
    pos: int,
    flags: byte,
    payload: seq<byte>,
    created: Time,
    lastSent: Option<Time>,
    transmissions: u32,
    rto: Time,
    persist: bool,
    rttEligible: bool,
    sends: seq<Time>)
  {
    function End(): int { pos + SequenceLength(flags, payload) }

    predicate Due(now: Time) { lastSent.None? || now >= LaterBy(lastSent.value, rto) }
  }

  /** `iss`, `written` are history; byte k of `written` has position iss + 1 + k. */
  datatype Sender = Sender(
    iss: int,
    written: seq<byte>,
    closed: bool,
    queued: seq<byte>,
    flights: seq<Flight>,
    una: int,
    sent: int,
    next: int)
  {
    function InFlight(): int { sent - una }
  }

  datatype Congestion = Congestion(
    cwnd: nat, ssthresh: nat, credit: nat, lastDataSent: Option<Time>, synRetransmitted: bool)

  /** What the peer has announced. The two window marks are compared only as 32-bit numbers. */
  datatype PeerView = PeerView(window: u16, sequence: u32, ack: u32, mss: u16)

  /** `known`, `irs`, `accepted` and `delivered` are history. */
  datatype Receiver = Receiver(
    known: bool,
    irs: int,
    next: int,
    buffer: seq<byte>,
    eof: bool,
    accepted: seq<byte>,
    delivered: seq<byte>)

  datatype Rtt = Rtt(rto: Time, srtt: Option<Time>, rttvar: Time)

  datatype Control = Control(
    ackPending: bool,
    probePending: bool,
    windowProbeAt: Time,
    phaseDeadline: Option<Time>,
    closeDeadline: Option<Time>,
    localError: bool)

  datatype Conn = Conn(
    state: TcpState,
    snd: Sender,
    cong: Congestion,
    peer: PeerView,
    rcv: Receiver,
    rtt: Rtt,
    ctl: Control)

  // ---------------------------------------------------------------- derived quantities

  function PayloadBytes(fs: seq<Flight>): nat {
    if fs == [] then 0 else |fs[0].payload| + PayloadBytes(fs[1..])
  }

  function SendBuffered(s: Sender): nat { |s.queued| + PayloadBytes(s.flights) }

  function AdvertisedWindow(r: Receiver, cfg: Config): int {
    Min(cfg.receiveCapacity - |r.buffer|, cfg.receiveWindowLimit)
  }

  function SendMss(p: PeerView, cfg: Config): nat { Min(cfg.mss, Max(p.mss, 1)) }

  function InitialCwnd(g: Congestion, p: PeerView, cfg: Config): nat {
    var mss := SendMss(p, cfg);
    var segments := if g.synRetransmitted then 1 else if mss > 2190 then 2 else if mss > 1095 then 3 else 4;
    Min(mss * Min(cfg.initialCwndSegments, segments), cfg.maxCwnd)
  }

  predicate Unsent(s: Sender) { s.flights != [] && Last(s.flights).transmissions == 0 }

  // ---------------------------------------------------------------- opening

  function NewFlight(s: Sender, rtt: Rtt, flags: byte, payload: seq<byte>, persist: bool, now: Time): Flight {
    Flight(s.next, flags, payload, now, None, 0, rtt.rto, persist, true, [])
  }

  function StartFlight(c: Conn, flags: byte, payload: seq<byte>, persist: bool, now: Time): Conn {
    var f := NewFlight(c.snd, c.rtt, flags, payload, persist, now);
    c.(snd := c.snd.(flights := c.snd.flights + [f], next := f.End()))
  }

  function Active(iss: u32, now: Time, cfg: Config): Conn {
    StartFlight(
      Conn(SynSent,
           Sender(iss, [], false, [], [], iss, iss, iss),
           Congestion(Min(cfg.maxCwnd, cfg.mss), cfg.initialSsthresh, 0, None, false),
           PeerView(0, 0, 0, 536),
           Receiver(false, 0, 0, [], false, [], []),
           Rtt(cfg.initialRto, None, 0),
           Control(false, false, now, Some(LaterBy(now, cfg.handshakeTimeout)), None, false)),
      SYN, [], false, now)
  }

  function Passive(syn: Segment, iss: u32, now: Time, cfg: Config): Conn {
    var c := Active(iss, now, cfg);
    c.(state := SynReceived,
       rcv := c.rcv.(known := true, irs := syn.sequence, next := syn.sequence + 1),
       peer := PeerView(syn.window, syn.sequence, 0, MssOrDefault(syn.mss)),
       snd := c.snd.(flights := [c.snd.flights[0].(flags := SYN + ACK)]))
  }

  function MssOrDefault(mss: Option<u16>): u16 { if mss.Some? then mss.value else 536 }

  // ---------------------------------------------------------------- application calls

  datatype WriteError = NotConnected | SendBufferFull

  function WriteResult(c: Conn, bytes: seq<byte>, cfg: Config): Result<nat, WriteError> {
    if c.snd.closed || !c.state.IsOpen() then Err(NotConnected)
    else if bytes == [] then Ok(0)
    else
      var n := Min(|bytes|, cfg.sendCapacity - SendBuffered(c.snd));
      if n <= 0 then Err(SendBufferFull) else Ok(n)
  }

  function Write(c: Conn, bytes: seq<byte>, cfg: Config): Conn {
    var r := WriteResult(c, bytes, cfg);
    if r.Ok? && r.value <= |bytes| then
      c.(snd := c.snd.(queued := c.snd.queued + bytes[..r.value], written := c.snd.written + bytes[..r.value]))
    else c
  }

  datatype ReadError = LocalFailure | ConnectionReset | ConnectionTimedOut | NoData

  function ReadResult(c: Conn, room: nat): Result<seq<byte>, ReadError> {
    if room == 0 then Ok([])
    else if c.ctl.localError then Err(LocalFailure)
    else if c.state.Reset? then Err(ConnectionReset)
    else if c.state.TimedOut? then Err(ConnectionTimedOut)
    else if c.rcv.buffer != [] then Ok(c.rcv.buffer[..Min(room, |c.rcv.buffer|)])
    else if c.rcv.eof || c.state.Closed? then Ok([])
    else Err(NoData)
  }

  function Read(c: Conn, room: nat): Conn {
    var r := ReadResult(c, room);
    if r.Ok? && 0 < |r.value| <= |c.rcv.buffer| then
      c.(rcv := c.rcv.(buffer := c.rcv.buffer[|r.value|..], delivered := c.rcv.delivered + r.value),
         ctl := c.ctl.(ackPending := true))
    else c
  }

  /** False where the source reports that the connection is not established. */
  predicate CloseAccepted(c: Conn) { c.snd.closed || c.state.IsOpen() }

  function Close(c: Conn, now: Time, cfg: Config): Conn {
    if c.snd.closed || !c.state.IsOpen() then c
    else c.(snd := c.snd.(closed := true), ctl := c.ctl.(closeDeadline := Some(LaterBy(now, cfg.closeTimeout))))
  }

  function Fail(c: Conn, state: TcpState): Conn {
    c.(state := state,
       snd := c.snd.(queued := [], flights := [], una := c.snd.sent, next := c.snd.sent),
       rcv := c.rcv.(buffer := []),
       ctl := c.ctl.(ackPending := false, phaseDeadline := None, closeDeadline := None, localError := false))
  }

  /** The pool's reaction to a route, address or packet error reported by the device. */
  function FailLocally(c: Conn): Conn {
    var d := Fail(c, Failed);
    d.(ctl := d.ctl.(localError := true))
  }

  // ---------------------------------------------------------------- timers

  predicate Reached(deadline: Option<Time>, now: Time) { deadline.Some? && now >= deadline.value }

  predicate Expired(c: Conn, now: Time, cfg: Config) {
    || Reached(c.ctl.phaseDeadline, now)
    || Reached(c.ctl.closeDeadline, now)
    || (c.snd.flights != [] &&
        var f := c.snd.flights[0];
        || now >= LaterBy(f.created, cfg.sendTimeout)
        || (!f.persist && f.Due(now) && f.transmissions > cfg.maxRetransmits))
  }

  function Tick(c: Conn, now: Time, cfg: Config): Conn {
    if c.state.IsTerminal() then c
    else if c.state.TimeWait? then
      if Reached(c.ctl.phaseDeadline, now)
      then c.(state := Closed, ctl := c.ctl.(phaseDeadline := None, ackPending := false))
      else c
    else if Expired(c, now, cfg) then Fail(c, TimedOut)
    else c
  }

  function EnterTimeWait(c: Conn, now: Time, cfg: Config): Conn {
    c.(state := TimeWait,
       ctl := c.ctl.(closeDeadline := None, phaseDeadline := Some(LaterBy(now, cfg.timeWait))))
  }

  // ---------------------------------------------------------------- acknowledgment

  function ClampRto(rto: Time, cfg: Config): Time { Min(Max(rto, cfg.initialRto), cfg.maxRto) }

  /** The estimator of section 2 of RFC 6298 in integer nanoseconds. */
  function UpdateRto(r: Rtt, sample: Time, cfg: Config): Rtt {
    var srtt, rttvar :=
      if r.srtt.Some? then
        var difference := if r.srtt.value > sample then r.srtt.value - sample else sample - r.srtt.value;
        LaterBy(Times(r.srtt.value, 7) / 8, sample / 8)
      else sample,
      if r.srtt.Some? then
        var difference := if r.srtt.value > sample then r.srtt.value - sample else sample - r.srtt.value;
        LaterBy(Times(r.rttvar, 3) / 4, difference / 4)
      else sample / 2;
    Rtt(ClampRto(LaterBy(srtt, Max(Times(rttvar, 4), MILLISECOND)), cfg), Some(srtt), rttvar)
  }

  /** What one pass over the flight queue has gathered. `done` counts completed flights. */
  datatype Sweep = Sweep(
    rest: seq<Flight>, done: nat, syn: bool, fin: bool, ambiguous: bool, sample: Option<Time>, bytes: nat)

  function Complete(w: Sweep, now: Time): Sweep
    requires w.rest != []
  {
    var f := w.rest[0];
    Sweep(w.rest[1..],
          w.done + 1,
          w.syn || HasSyn(f.flags),
          w.fin || HasFin(f.flags),
          w.ambiguous || !f.rttEligible || f.transmissions > 1,
          if f.transmissions == 1 && f.rttEligible
          then (if f.lastSent.Some? then Some(Monus(now, f.lastSent.value)) else None)
          else w.sample,
          w.bytes + |f.payload|)
  }

  function Shorten(w: Sweep, ack: int): Sweep
    requires w.rest != [] && w.rest[0].pos < ack < w.rest[0].End()
  {
    var f := w.rest[0];
    var consumed := Min(ack - f.pos, |f.payload|);
    w.(rest := w.rest[0 := f.(payload := f.payload[consumed..], pos := ack, rttEligible := false)],
       ambiguous := w.ambiguous || !f.rttEligible || f.transmissions > 1,
       bytes := w.bytes + consumed)
  }

  function SweepFrom(w: Sweep, ack: int, now: Time): Sweep
    decreases |w.rest|
  {
    if w.rest == [] || w.rest[0].pos >= ack then w
    else if ack >= w.rest[0].End() then SweepFrom(Complete(w, now), ack, now)
    else Shorten(w, ack)
  }

  function SweepFlights(fs: seq<Flight>, ack: int, now: Time): Sweep {
    SweepFrom(Sweep(fs, 0, false, false, false, None, 0), ack, now)
  }

  function StopPersisting(fs: seq<Flight>): (r: seq<Flight>)
    ensures |r| == |fs|
    ensures forall i :: 0 <= i < |fs| ==> r[i] == fs[i].(persist := false)
  {
    seq(|fs|, i requires 0 <= i < |fs| => fs[i].(persist := false))
  }

  predicate AnnouncesWindow(p: PeerView, seg: Seg) {
    || Before(p.sequence, Wrap(seg.pos))
    || (p.sequence == Wrap(seg.pos) && !Before(Wrap(seg.ack), p.ack))
  }

  function UpdateWindow(c: Conn, seg: Seg): Conn {
    if AnnouncesWindow(c.peer, seg) then
      c.(peer := PeerView(seg.window, Wrap(seg.pos), Wrap(seg.ack), c.peer.mss),
         snd := if seg.window > 0 then c.snd.(flights := StopPersisting(c.snd.flights)) else c.snd)
    else c
  }

  function RestartTimer(fs: seq<Flight>, rto: Time, now: Time): seq<Flight> {
    if fs != [] && fs[0].lastSent.Some?
    then fs[0 := fs[0].(lastSent := Some(now), rto := rto, rttEligible := false)]
    else fs
  }

  /** Slow start and congestion avoidance (section 3.1 of RFC 5681) for `bytes` newly acknowledged. */
  function GrowWindow(g: Congestion, p: PeerView, bytes: nat, cfg: Config): Congestion {
    var mss := SendMss(p, cfg);
    if g.cwnd < g.ssthresh then
      g.(cwnd := Min(SizeAdd(g.cwnd, Min(bytes, mss)), cfg.maxCwnd))
    else
      var credit := SizeAdd(g.credit, bytes);
      if credit >= g.cwnd then g.(credit := credit - g.cwnd, cwnd := Min(SizeAdd(g.cwnd, mss), cfg.maxCwnd))
      else g.(credit := credit, cwnd := Min(g.cwnd, cfg.maxCwnd))
  }

  /** Progress of the send side when `ack` lies beyond the oldest unacknowledged position. */
  function Advance(c: Conn, ack: int, now: Time, cfg: Config): Conn {
    var w := SweepFlights(c.snd.flights, ack, now);
    var rtt := if !w.ambiguous && w.sample.Some? then UpdateRto(c.rtt, w.sample.value, cfg) else c.rtt;
    var snd := c.snd.(flights := RestartTimer(w.rest, rtt.rto, now), una := ack);
    var cong, rtt' :=
      if w.syn then c.cong.(cwnd := InitialCwnd(c.cong, c.peer, cfg))
      else if w.bytes > 0 then GrowWindow(c.cong, c.peer, w.bytes, cfg)
      else c.cong,
      if w.syn && c.cong.synRetransmitted then rtt.(rto := ClampRto(3 * SECOND, cfg)) else rtt;
    var d := c.(snd := snd, cong := cong, rtt := rtt');
    if w.fin then FinAcknowledged(d, now, cfg) else d
  }

  function FinAcknowledged(c: Conn, now: Time, cfg: Config): Conn {
    match c.state
    case FinWait1 => c.(state := FinWait2)
    case Closing => EnterTimeWait(c, now, cfg)
    case LastAck => c.(state := Closed, ctl := c.ctl.(closeDeadline := None, ackPending := false))
    case _ => c
  }

  function Acknowledge(c: Conn, seg: Seg, now: Time, cfg: Config): Conn {
    if seg.ack < c.snd.una then c
    else
      var d := UpdateWindow(c, seg);
      if seg.ack == c.snd.una then d else Advance(d, seg.ack, now, cfg)
  }

  // ---------------------------------------------------------------- received data

  /** Appends the part of the payload that starts at the expected position and fits the window. */
  function AcceptBytes(r: Receiver, seg: Seg, window: nat): Receiver
    requires seg.pos <= r.next <= seg.pos + |seg.payload|
  {
    var skip := r.next - seg.pos;
    var count := Min(|seg.payload| - skip, window);
    var bytes := seg.payload[skip..skip + count];
    r.(next := r.next + count, buffer := r.buffer + bytes, accepted := r.accepted + bytes)
  }

  function PeerFinished(c: Conn, now: Time, cfg: Config): Conn {
    var d := c.(rcv := c.rcv.(next := c.rcv.next + 1, eof := true));
    match c.state
    case Established => d.(state := CloseWait)
    case FinWait1 => d.(state := Closing)
    case FinWait2 => EnterTimeWait(d, now, cfg)
    case _ => d
  }

  predicate TakesData(c: Conn, seg: Seg, cfg: Config) {
    && !c.rcv.eof
    && (c.state.Established? || c.state.FinWait1? || c.state.FinWait2?)
    && seg.pos <= c.rcv.next <= seg.pos + |seg.payload|
    && 0 <= AdvertisedWindow(c.rcv, cfg)
  }

  function ReceiveData(c: Conn, seg: Seg, now: Time, cfg: Config): Conn {
    if seg.payload == [] && !HasFin(seg.flags) then c
    else if !TakesData(c, seg, cfg) then WantAck(c)
    else
      var window := AdvertisedWindow(c.rcv, cfg);
      var d := WantAck(c).(rcv := AcceptBytes(c.rcv, seg, window));
      if HasFin(seg.flags) && seg.pos + |seg.payload| == d.rcv.next && d.rcv.next - c.rcv.next < window
      then PeerFinished(d, now, cfg)
      else d
  }

  // ---------------------------------------------------------------- segment arrival

  /** The segment as it travels, with 32-bit numbers. */
  function ToWire(seg: Seg, local: Endpoint, remote: Endpoint): Segment {
    Segment(local, remote, Wrap(seg.pos), Wrap(seg.ack), seg.flags, seg.window, seg.mss, seg.payload)
  }

  /** The position of an arriving segment: relative to what this side expects and has sent. */
  function Place(c: Conn, s: Segment): Seg {
    Seg(UnwrapSequence(s.sequence, if c.state.SynSent? then 0x8000_0000 else c.rcv.next),
        UnwrapAck(s.acknowledgment, c.snd.sent),
        s.flags, s.window, s.mss, s.payload)
  }

  predicate Acceptable(r: Receiver, seg: Seg, cfg: Config) {
    var window := AdvertisedWindow(r, cfg);
    var length := SequenceLength(seg.flags, seg.payload);
    if length == 0 then seg.pos == r.next || r.next < seg.pos < r.next + window
    else window > 0 && seg.pos < r.next + window && r.next < seg.pos + length
  }

  function WantAck(c: Conn): Conn { c.(ctl := c.ctl.(ackPending := true)) }

  /** The peer's SYN-ACK is accepted: its position and window become known. */
  function Establish(c: Conn, seg: Seg, now: Time, cfg: Config): Conn {
    var d := c.(rcv := c.rcv.(known := true, irs := seg.pos, next := seg.pos + 1),
                peer := PeerView(seg.window, Wrap(seg.pos), Wrap(seg.ack), MssOrDefault(seg.mss)));
    var a := Acknowledge(d, seg, now, cfg);
    a.(state := Established, ctl := a.ctl.(phaseDeadline := None, ackPending := true))
  }

  function InputSynSent(c: Conn, seg: Seg, now: Time, cfg: Config): Conn {
    var validAck := HasAck(seg.flags) && seg.ack == c.snd.sent && c.snd.sent != c.snd.una;
    if HasRst(seg.flags) then
      if validAck then Fail(c, Reset) else c
    else if !validAck || !HasSyn(seg.flags) || HasFin(seg.flags) then c
    else
      var e := Establish(c, seg, now, cfg);
      if seg.payload == [] then e
      else ReceiveData(e, seg.(pos := seg.pos + 1, flags := WithoutSyn(seg.flags)), now, cfg)
  }

  function InputTimeWait(c: Conn, seg: Seg, now: Time, cfg: Config): Conn {
    if HasRst(seg.flags) then c
    else
      var d := WantAck(c);
      if HasFin(seg.flags) && seg.pos + SequenceLength(seg.flags, seg.payload) == c.rcv.next
      then d.(ctl := d.ctl.(phaseDeadline := Some(LaterBy(now, cfg.timeWait))))
      else d
  }

  predicate RepeatsSyn(c: Conn, seg: Seg) {
    && c.state.SynReceived?
    && HasSyn(seg.flags) && !HasAck(seg.flags) && !HasRst(seg.flags)
    && seg.pos + 1 == c.rcv.next
  }

  function ResendSyn(c: Conn): Conn {
    if c.snd.flights == [] then c
    else c.(snd := c.snd.(flights := c.snd.flights[0 := c.snd.flights[0].(lastSent := None)]))
  }

  /** An acceptable segment that carries an acknowledgment of nothing beyond what was sent. */
  function InputAcknowledged(c: Conn, seg: Seg, now: Time, cfg: Config): Conn {
    if c.state.SynReceived? && (seg.ack != c.snd.sent || c.snd.sent == c.snd.una) then c
    else
      var d := if c.state.SynReceived?
        then c.(state := Established, ctl := c.ctl.(phaseDeadline := None)) else c;
      var e := Acknowledge(d, seg, now, cfg);
      if e.state.IsTerminal() then e else ReceiveData(e, seg, now, cfg)
  }

  function InputSynchronized(c: Conn, seg: Seg, now: Time, cfg: Config): Conn {
    if RepeatsSyn(c, seg) then ResendSyn(c)
    else if !Acceptable(c.rcv, seg, cfg) then
      if HasRst(seg.flags) then c else WantAck(c)
    else if HasRst(seg.flags) then
      if seg.pos == c.rcv.next then Fail(c, Reset) else WantAck(c)
    else if HasSyn(seg.flags) then WantAck(c)
    else if !HasAck(seg.flags) then c
    else if seg.ack > c.snd.sent then WantAck(c)
    else InputAcknowledged(c, seg, now, cfg)
  }

  function Input(c: Conn, seg: Seg, now: Time, cfg: Config): Conn {
    if c.state.IsTerminal() then c
    else if c.state.SynSent? then InputSynSent(c, seg, now, cfg)
    else if c.state.TimeWait? then InputTimeWait(c, seg, now, cfg)
    else InputSynchronized(c, seg, now, cfg)
  }

  // ---------------------------------------------------------------- transmission

  predicate MayPrepare(c: Conn, cfg: Config) {
    c.state.IsOpen() && |c.snd.flights| < cfg.maxInflight && !Unsent(c.snd)
  }

  /** Restart of an idle connection (section 4.1 of RFC 5681). */
  function AfterIdle(c: Conn, now: Time, cfg: Config): Congestion {
    if c.snd.flights == [] && c.cong.lastDataSent.Some? && now >= LaterBy(c.cong.lastDataSent.value, c.rtt.rto)
    then c.cong.(cwnd := Min(c.cong.cwnd, InitialCwnd(c.cong, c.peer, cfg)), credit := 0)
    else c.cong
  }

  function Room(cwnd: nat, window: nat, used: int): nat {
    if used < Min(cwnd, window) then Min(Min(cwnd, window) - used, Min(cwnd, window)) else 0
  }

  function PrepareData(c: Conn, now: Time, cfg: Config): Conn {
    var d := c.(cong := AfterIdle(c, now, cfg));
    var persist := c.peer.window == 0 && c.snd.flights == [];
    var available := if persist then 1 else Room(d.cong.cwnd, c.peer.window, c.snd.next - c.snd.una);
    var n := Min(|c.snd.queued|, Min(SendMss(c.peer, cfg), available));
    if n == 0 then d
    else
      StartFlight(d.(snd := c.snd.(queued := c.snd.queued[n..])), ACK + PSH, c.snd.queued[..n], persist, now)
  }

  function PrepareFin(c: Conn, now: Time): Conn {
    if c.peer.window > 0 then
      StartFlight(c, FIN + ACK, [], false, now).(state := if c.state.CloseWait? then LastAck else FinWait1)
    else if now >= c.ctl.windowProbeAt then c.(ctl := c.ctl.(probePending := true))
    else c
  }

  function Prepare(c: Conn, now: Time, cfg: Config): Conn {
    if !MayPrepare(c, cfg) then c
    else if c.snd.queued != [] then PrepareData(c, now, cfg)
    else if c.snd.flights == [] && c.snd.closed then PrepareFin(c, now)
    else c
  }

  function ChooseFlight(s: Sender, now: Time): Option<nat> {
    if s.flights != [] && s.flights[0].Due(now) then Some(0)
    else if Unsent(s) then Some(|s.flights| - 1)
    else None
  }

  /** Returns bytes of the newest flight beyond `keep` to the front of the queue. */
  function TrimLast(s: Sender, keep: nat): Sender
    requires s.flights != []
  {
    var f := Last(s.flights);
    if |f.payload| <= keep then s
    else
      var g := f.(payload := f.payload[..keep]);
      s.(flights := s.flights[|s.flights| - 1 := g], queued := f.payload[keep..] + s.queued, next := g.End())
  }

  function CutFlight(s: Sender, index: nat, available: nat, persist: bool): Sender
    requires index < |s.flights|
  {
    var t := if index == |s.flights| - 1 then TrimLast(s, available) else s;
    t.(flights := t.flights[index := t.flights[index].(persist := persist)])
  }

  /** A connection ready to transmit and the flight it has chosen, if any. */
  datatype Plan = Plan(conn: Conn, index: Option<nat>)

  /** Rechecks both windows before bytes that were never submitted leave. */
  function Admit(c: Conn, index: nat, now: Time): Plan
    requires index < |c.snd.flights|
  {
    var f := c.snd.flights[index];
    if f.transmissions != 0 || HasSyn(f.flags) then Plan(c, Some(index))
    else
      var persist := c.peer.window == 0 && c.snd.InFlight() == 0;
      var available := if persist then 1 else Room(c.cong.cwnd, c.peer.window, c.snd.InFlight());
      if available == 0 || (persist && HasFin(f.flags)) then
        Plan(if persist && now >= c.ctl.windowProbeAt then c.(ctl := c.ctl.(probePending := true)) else c, None)
      else
        Plan(c.(snd := CutFlight(c.snd, index, available, persist)), Some(index))
  }

  function PlanTransmit(c: Conn, now: Time, cfg: Config): Plan {
    var d := Prepare(c, now, cfg);
    var index := ChooseFlight(d.snd, now);
    if index.Some? && index.value < |d.snd.flights| then Admit(d, index.value, now) else Plan(d, None)
  }

  predicate Emits(p: Plan) { p.index.Some? || p.conn.ctl.ackPending || p.conn.ctl.probePending }

  predicate ValidPlan(p: Plan) { p.index.Some? ==> p.index.value < |p.conn.snd.flights| }

  /** The segment handed to the device. */
  function Emission(p: Plan, cfg: Config): Seg
    requires ValidPlan(p)
  {
    var c := p.conn;
    var window := AdvertisedWindow(c.rcv, cfg);
    var w: u16 := if 0 <= window < 0x1_0000 then window else 0;
    if p.index.Some? then
      var f := c.snd.flights[p.index.value];
      Seg(f.pos, c.rcv.next, f.flags, w, if HasSyn(f.flags) then Some(cfg.mss) else None, f.payload)
    else
      Seg(if c.ctl.probePending && !c.ctl.ackPending then c.snd.sent - 1 else c.snd.sent,
          c.rcv.next, ACK, w, None, [])
  }

  function Resubmitted(f: Flight, now: Time, cfg: Config): Flight {
    var g := if f.transmissions > 0 then f.(rto := Min(Times(f.rto, 2), cfg.maxRto), rttEligible := false) else f;
    g.(transmissions := Min(f.transmissions + 1, 0xffff_ffff), lastSent := Some(now), sends := f.sends + [now])
  }

  function ForgetSamples(fs: seq<Flight>): (r: seq<Flight>)
    ensures |r| == |fs|
    ensures forall i :: 0 <= i < |fs| ==> r[i] == fs[i].(rttEligible := false)
  {
    seq(|fs|, i requires 0 <= i < |fs| => fs[i].(rttEligible := false))
  }

  /** Timeout of a flight (section 3.1 of RFC 5681): the first one sets the threshold. */
  function OnLoss(g: Congestion, p: PeerView, f: Flight, inflight: int, cfg: Config): Congestion {
    var mss := SendMss(p, cfg);
    g.(ssthresh := if f.transmissions == 1 then Max(inflight / 2, 2 * mss) else g.ssthresh,
       cwnd := Min(mss, cfg.maxCwnd),
       credit := 0)
  }

  /** Congestion state after flight `f` was submitted, for the first time or again. */
  function AfterSubmission(g: Congestion, p: PeerView, f: Flight, inflight: int, now: Time, cfg: Config): Congestion {
    var again := f.transmissions > 0;
    var timedOut := f.lastSent.Some? && now >= LaterBy(f.lastSent.value, f.rto);
    var g1 := if again then g.(synRetransmitted := g.synRetransmitted || HasSyn(f.flags)) else g;
    var g2 := if again && !f.persist && timedOut then OnLoss(g1, p, f, inflight, cfg) else g1;
    if f.payload != [] then g2.(lastDataSent := Some(now)) else g2
  }

  function MarkSubmitted(fs: seq<Flight>, index: nat, now: Time, cfg: Config): seq<Flight>
    requires index < |fs|
  {
    var marked := fs[index := Resubmitted(fs[index], now, cfg)];
    if fs[index].transmissions > 0 then ForgetSamples(marked) else marked
  }

  /** Bookkeeping after the device has accepted flight `index`. */
  function Submitted(c: Conn, index: nat, now: Time, cfg: Config): Conn
    requires index < |c.snd.flights|
  {
    var f := c.snd.flights[index];
    c.(cong := AfterSubmission(c.cong, c.peer, f, c.snd.InFlight(), now, cfg),
       rtt := if f.transmissions > 0 then c.rtt.(rto := Resubmitted(f, now, cfg).rto) else c.rtt,
       snd := c.snd.(flights := MarkSubmitted(c.snd.flights, index, now, cfg), sent := Max(c.snd.sent, f.End())))
  }

  function Commit(p: Plan, now: Time, cfg: Config): Conn
    requires ValidPlan(p)
  {
    var c := if p.index.Some? then Submitted(p.conn, p.index.value, now, cfg) else p.conn;
    c.(ctl := c.ctl.(ackPending := c.ctl.ackPending && !HasAck(Emission(p, cfg).flags),
                     probePending := false,
                     windowProbeAt := if c.ctl.probePending then LaterBy(now, c.rtt.rto) else c.ctl.windowProbeAt))
  }

  /** What the device did with the segment it was offered, if one was offered. */
  datatype DeviceOutcome = Accepted | Refused

  function Transmit(c: Conn, now: Time, cfg: Config, outcome: DeviceOutcome): Conn {
    if c.state.IsTerminal() then c
    else
      var p := PlanTransmit(c, now, cfg);
      if Emits(p) && outcome.Accepted? && ValidPlan(p) then Commit(p, now, cfg) else p.conn
  }
}
