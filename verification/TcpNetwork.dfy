/**
 Two connections over a network that loses, duplicates and reorders segments.

 The network remembers every segment that was ever submitted to it and may deliver any of them at
 any time, any number of times, or never. The one thing it may not do is deliver a segment so old
 that its numbers have come round again (section 3.4 of RFC 9293). Anyone may inject resets.
 */
module TcpNetwork {
  import opened Prelude
  import opened SequenceNumbers
  import opened TcpSegment
  import opened TcpModel
  import opened TcpFlights
  import opened TcpInvariants
  import opened TcpProperties
  import TcpWire

  /** The server has no connection until a SYN reaches its listener. */
  datatype Net = Net(client: Conn, server: Option<Conn>, toServer: set<Seg>, toClient: set<Seg>)

  datatype Ends = Ends(clientCfg: Config, serverCfg: Config, clientAddress: Endpoint, serverAddress: Endpoint)

  datatype Step =
    | ClientCalls(op: Op)
    | ServerCalls(op: Op)
    | ClientSends(at: Time)
    | ServerSends(at: Time)
    | ToServer(seg: Seg, padding: seq<byte>, at: Time, iss: u32)
    | ToClient(seg: Seg, padding: seq<byte>, at: Time)
    | ResetClient(segment: Segment, at: Time)
    | ResetServer(segment: Segment, at: Time)

  /** Calls and timers; segments arrive and leave through the network's own steps. */
  predicate IsCall(op: Op) { !op.OpInput? && !(op.OpTransmit? && op.outcome.Accepted?) }

  /** Not so old that its numbers could be taken for new ones. */
  predicate Fresh(c: Conn, seg: Seg) {
    && (!c.state.SynSent? ==> c.rcv.next - seg.pos < 0x8000_0000)
    && (HasAck(seg.flags) ==> c.snd.sent - seg.ack < 0x8000_0000)
  }

  predicate OpensConnection(flags: byte) { HasSyn(flags) && !HasAck(flags) && !HasFin(flags) && !HasRst(flags) }

  function Sent(c: Conn, at: Time, cfg: Config): (Conn, set<Seg>) {
    var p := PlanTransmit(c, at, cfg);
    (Transmit(c, at, cfg, Accepted),
     if !c.state.IsTerminal() && Emits(p) && ValidPlan(p) then {Emission(p, cfg)} else {})
  }

  /** What the receiving side reads from the bytes that the sending side built. */
  function Carried(seg: Seg, padding: seq<byte>, source: Endpoint, destination: Endpoint): Option<Segment> {
    var wire := ToWire(seg, source, destination);
    if !TcpWire.Buildable(wire) then None
    else
      var r := TcpWire.Parse(TcpWire.Datagram(wire) + padding);
      if r.Ok? then Some(r.value) else None
  }

  function Arrives(c: Conn, s: Option<Segment>, at: Time, cfg: Config): Conn {
    if s.Some? then Input(c, Place(c, s.value), at, cfg) else c
  }

  function Next(n: Net, step: Step, e: Ends): Net {
    match step
    case ClientCalls(op) =>
      if IsCall(op) then n.(client := Apply(n.client, op, e.clientCfg)) else n
    case ServerCalls(op) =>
      if IsCall(op) && n.server.Some? then n.(server := Some(Apply(n.server.value, op, e.serverCfg))) else n
    case ClientSends(at) =>
      var (c, out) := Sent(n.client, at, e.clientCfg);
      n.(client := c, toServer := n.toServer + out)
    case ServerSends(at) =>
      if n.server.None? then n
      else
        var (c, out) := Sent(n.server.value, at, e.serverCfg);
        n.(server := Some(c), toClient := n.toClient + out)
    case ToServer(seg, padding, at, iss) =>
      var s := Carried(seg, padding, e.clientAddress, e.serverAddress);
      if seg !in n.toServer then n
      else if n.server.None? then
        if s.Some? && OpensConnection(s.value.flags) then n.(server := Some(Passive(s.value, iss, at, e.serverCfg)))
        else n
      else if !Fresh(n.server.value, seg) then n
      else n.(server := Some(Arrives(n.server.value, s, at, e.serverCfg)))
    case ToClient(seg, padding, at) =>
      if seg !in n.toClient || !Fresh(n.client, seg) then n
      else n.(client := Arrives(n.client, Carried(seg, padding, e.serverAddress, e.clientAddress), at, e.clientCfg))
    case ResetClient(segment, at) =>
      if HasRst(segment.flags) then n.(client := Input(n.client, Place(n.client, segment), at, e.clientCfg)) else n
    case ResetServer(segment, at) =>
      if HasRst(segment.flags) && n.server.Some?
      then n.(server := Some(Input(n.server.value, Place(n.server.value, segment), at, e.serverCfg)))
      else n
  }

  function Start(iss: u32, at: Time, e: Ends): Net { Net(Active(iss, at, e.clientCfg), None, {}, {}) }

  function Run(n: Net, steps: seq<Step>, e: Ends): Net
    decreases |steps|
  {
    if steps == [] then n else Run(Next(n, steps[0], e), steps[1..], e)
  }

  // ---------------------------------------------------------------- one direction

  const NOBODY: Receiver := Receiver(false, 0, 0, [], false, [], [])

  /** What receiver `r` holds of what sender `s` wrote. */
  predicate Received(s: Sender, r: Receiver) {
    && (!r.known ==> r.accepted == [] && !r.eof)
    && (r.known ==>
          && r.irs == s.iss
          && r.next == r.irs + 1 + |r.accepted| + (if r.eof then 1 else 0)
          && r.next <= s.sent)
    && r.accepted <= s.written
    && (r.eof ==> r.accepted == s.written && s.closed)
  }

  /** The position up to which `r` has received from a sender that started at `iss`. */
  function Reach(r: Receiver, iss: int): int { if r.known then r.next else iss }

  /** The flow from `x` to receiver `r` through the segments in `channel`. */
  predicate Flow(x: Conn, channel: set<Seg>, r: Receiver, cfg: Config) {
    && 0 <= x.snd.iss < 0x1_0000_0000
    && (forall seg :: seg in channel ==> Genuine(x, seg))
    && Received(x.snd, r)
    && (!x.state.IsAborted() ==> x.snd.una <= Reach(r, x.snd.iss))
    && x.snd.sent <= Reach(r, x.snd.iss) + cfg.sendCapacity + 1
  }

  function ServerReceiver(n: Net): Receiver { if n.server.Some? then n.server.value.rcv else NOBODY }

  ghost predicate NetInv(n: Net, e: Ends) {
    && e.serverCfg.Valid()
    && Inv(n.client, e.clientCfg)
    && Flow(n.client, n.toServer, ServerReceiver(n), e.clientCfg)
    && (n.server.None? ==> n.toClient == {} && !n.client.rcv.known)
    && (n.server.Some? ==>
          && Inv(n.server.value, e.serverCfg)
          && Flow(n.server.value, n.toClient, n.client.rcv, e.serverCfg))
  }

  // ---------------------------------------------------------------- what a genuine segment delivers

  /** Bytes taken from a genuine segment continue the prefix. */
  lemma AcceptPrefix(s: Sender, r: Receiver, seg: Seg, window: nat)
    requires Received(s, r) && r.known && !r.eof
    requires seg.pos <= r.next <= seg.pos + |seg.payload|
    requires seg.payload != [] ==> Holds(seg.payload, s.iss, s.written, seg.pos) && seg.pos + |seg.payload| <= s.sent
    ensures Received(s, AcceptBytes(r, seg, window))
  {
    var q := AcceptBytes(r, seg, window);
    if seg.payload != [] {
      var skip, n := r.next - seg.pos, |r.accepted|;
      var count := Min(|seg.payload| - skip, window);
      SubSlice(s.written, seg.payload, seg.pos - s.iss - 1, skip, count);
      PrefixGrows(s.written, r.accepted, seg.payload[skip..skip + count]);
    } else {
      assert q.accepted == r.accepted;
    }
  }

  lemma SubSlice(w: seq<byte>, piece: seq<byte>, at: nat, skip: nat, count: nat)
    requires at + |piece| <= |w| && piece == w[at..at + |piece|] && skip + count <= |piece|
    ensures piece[skip..skip + count] == w[at + skip..at + skip + count]
  {
    var x, y := piece[skip..skip + count], w[at + skip..at + skip + count];
    forall k | 0 <= k < |x| ensures x[k] == y[k] {
      assert x[k] == piece[skip + k] == w[at..at + |piece|][skip + k];
    }
  }

  lemma PrefixGrows(w: seq<byte>, a: seq<byte>, piece: seq<byte>)
    requires a <= w && |a| + |piece| <= |w| && piece == w[|a|..|a| + |piece|]
    ensures a + piece <= w
  {}

  lemma ReceiveDataPrefix(x: Conn, c: Conn, seg: Seg, now: Time, cfg: Config)
    requires Received(x.snd, c.rcv) && c.rcv.known && Genuine(x, seg) && !HasSyn(seg.flags)
    ensures Received(x.snd, ReceiveData(c, seg, now, cfg).rcv)
  {
    hide Received, AcceptBytes, Holds, HasFin, HasSyn, HasAck, HasRst;
    if TakesData(c, seg, cfg) {
      var window := AdvertisedWindow(c.rcv, cfg);
      AcceptPrefix(x.snd, c.rcv, seg, window);
      var q := AcceptBytes(c.rcv, seg, window);
      AcceptKeeps(c.rcv, seg, window);
      if HasFin(seg.flags) && seg.pos + |seg.payload| == q.next {
        FinCompletes(x.snd, q);
      }
    }
  }

  lemma AcceptKeeps(r: Receiver, seg: Seg, window: nat)
    requires seg.pos <= r.next <= seg.pos + |seg.payload|
    ensures AcceptBytes(r, seg, window).known == r.known && AcceptBytes(r, seg, window).eof == r.eof
  {}

  /** A receiver that expects the sender's FIN has the whole stream. */
  lemma FinCompletes(s: Sender, r: Receiver)
    requires Received(s, r) && r.known && !r.eof && s.closed
    requires r.next == s.iss + 1 + |s.written| && r.next + 1 <= s.sent
    ensures Received(s, r.(next := r.next + 1, eof := true))
  {}

  lemma FailedReceiver(s: Sender, r: Receiver)
    requires Received(s, r)
    ensures Received(s, r.(buffer := []))
  {}

  lemma EstablishReceiver(c: Conn, seg: Seg, now: Time, cfg: Config)
    requires Inv(c, cfg) && c.state.SynSent? && seg.ack == c.snd.sent && c.snd.sent != c.snd.una
    ensures Establish(c, seg, now, cfg).rcv == c.rcv.(known := true, irs := seg.pos, next := seg.pos + 1)
  {
    hide Acknowledge, Wrap;
    SenderStates(c.state, c.snd, cfg);
    var d := c.(rcv := c.rcv.(known := true, irs := seg.pos, next := seg.pos + 1),
                peer := PeerView(seg.window, Wrap(seg.pos), Wrap(seg.ack), MssOrDefault(seg.mss)));
    AcknowledgeSynInv(d, seg, now, cfg);
  }

  lemma SynSentPrefix(x: Conn, c: Conn, seg: Seg, now: Time, cfg: Config)
    requires Inv(c, cfg) && c.state.SynSent? && Received(x.snd, c.rcv) && Genuine(x, seg)
    ensures Received(x.snd, InputSynSent(c, seg, now, cfg).rcv)
  {
    FailedReceiver(x.snd, c.rcv);
    if seg.ack == c.snd.sent && c.snd.sent != c.snd.una {
      EstablishReceiver(c, seg, now, cfg);
    }
    hide Establish, ReceiveData, HasAck, HasFin, HasRst, SenderInv, FlowInv, Holds;
  }

  /** The central step: whatever arrives from `x`, the receiver still holds a prefix of its stream. */
  lemma InputPrefix(x: Conn, c: Conn, seg: Seg, now: Time, cfg: Config)
    requires Inv(c, cfg) && Received(x.snd, c.rcv) && Genuine(x, seg)
    ensures Received(x.snd, Input(c, seg, now, cfg).rcv)
  {
    hide Received, Genuine, InputSynSent, InputAcknowledged, HasSyn, HasAck, HasFin, HasRst, Acceptable;
    hide SenderInv, ReceiverInv, FlowInv;
    FailedReceiver(x.snd, c.rcv);
    if c.state.SynSent? {
      SynSentPrefix(x, c, seg, now, cfg);
    } else if !c.state.IsTerminal() && !HasSyn(seg.flags) && seg.ack <= c.snd.sent {
      AcknowledgedPrefix(x, c, seg, now, cfg);
    }
  }

  lemma KnownUnlessTerminal(c: Conn, cfg: Config)
    requires Inv(c, cfg) && !c.state.SynSent? && !c.state.IsTerminal()
    ensures c.rcv.known
  {
    hide SenderInv;
  }

  lemma AcknowledgedPrefix(x: Conn, c: Conn, seg: Seg, now: Time, cfg: Config)
    requires Inv(c, cfg) && !c.state.SynSent? && !c.state.IsTerminal() && seg.ack <= c.snd.sent
    requires Received(x.snd, c.rcv) && Genuine(x, seg) && !HasSyn(seg.flags)
    ensures Received(x.snd, InputAcknowledged(c, seg, now, cfg).rcv)
  {
    KnownUnlessTerminal(c, cfg);
    hide Received, Genuine, Acknowledge, ReceiveData, SenderInv, ReceiverInv, FlowInv, HasSyn;
    var d := if c.state.SynReceived? then c.(state := Established, ctl := c.ctl.(phaseDeadline := None)) else c;
    if c.state.SynReceived? {
      if seg.ack == c.snd.sent && c.snd.sent != c.snd.una { SynAcknowledgedInv(c, seg, now, cfg); }
    } else {
      AcknowledgeInv(c, seg, now, cfg);
    }
    var a := Acknowledge(d, seg, now, cfg);
    if a.rcv == c.rcv {
      ReceiveDataPrefix(x, a, seg, now, cfg);
    }
  }

  // ---------------------------------------------------------------- recovering positions

  /** A fresh genuine segment is placed where it belongs. The acknowledgment field of a segment
      without ACK means nothing; before the peer's position is known only a SYN matters. */
  lemma PlacedGenuine(x: Conn, c: Conn, seg: Seg, cfg: Config, source: Endpoint, destination: Endpoint)
    requires Inv(c, cfg) && Genuine(x, seg) && 0 <= x.snd.iss < 0x1_0000_0000 && Fresh(c, seg)
    requires x.snd.sent < Reach(c.rcv, x.snd.iss) + 0x8000_0000
    requires HasAck(seg.flags) ==> seg.ack < c.snd.sent + 0x8000_0000
    requires !c.state.IsAborted() && (!c.state.SynSent? || HasSyn(seg.flags))
    ensures
      var placed := Place(c, ToWire(seg, source, destination));
      && placed == seg.(ack := placed.ack)
      && (HasAck(seg.flags) ==> placed == seg)
      && Genuine(x, placed)
  {
    PlacedPosition(x, c, seg, cfg);
    if HasAck(seg.flags) {
      UnwrapExact(seg.ack, c.snd.sent);
    }
    hide Wrap, UnwrapSequence, UnwrapAck, SenderInv, ReceiverInv, FlowInv, HasSyn, HasAck, HasFin, HasRst, Holds;
  }

  lemma PlacedPosition(x: Conn, c: Conn, seg: Seg, cfg: Config)
    requires Inv(c, cfg) && Genuine(x, seg) && 0 <= x.snd.iss < 0x1_0000_0000 && Fresh(c, seg)
    requires x.snd.sent < Reach(c.rcv, x.snd.iss) + 0x8000_0000
    requires !c.state.IsAborted() && (!c.state.SynSent? || HasSyn(seg.flags))
    ensures UnwrapSequence(Wrap(seg.pos), if c.state.SynSent? then 0x8000_0000 else c.rcv.next) == seg.pos
  {
    hide Wrap, UnwrapSequence, SenderInv, FlowInv, HasSyn, HasAck, HasFin, HasRst, Holds;
    if c.state.SynSent? {
      SmallUnwraps(seg.pos);
    } else {
      UnwrapExact(seg.pos, c.rcv.next);
    }
  }

  lemma SmallUnwraps(x: u32)
    ensures UnwrapSequence(Wrap(x), 0x8000_0000) == x
  {
    WrapInjective(UnwrapSequence(Wrap(x), 0x8000_0000), x);
  }

  /** Without a SYN or a reset nothing happens before the peer is known. */
  lemma SynSentIgnores(c: Conn, seg: Seg, now: Time, cfg: Config)
    requires c.state.SynSent? && !HasSyn(seg.flags) && !HasRst(seg.flags)
    ensures Input(c, seg, now, cfg) == c
  {
    hide HasSyn, HasRst, HasAck, HasFin, Establish;
  }

  // ---------------------------------------------------------------- the send side

  /** Arriving segments never change what was submitted. */
  lemma InputKeepsSent(c: Conn, seg: Seg, now: Time, cfg: Config)
    requires Inv(c, cfg)
    ensures Input(c, seg, now, cfg).snd.sent == c.snd.sent
  {
    hide Acceptable, HasSyn, HasAck, HasFin, HasRst, InputAcknowledged, InputSynSent;
    hide SenderInv, ReceiverInv, FlowInv;
    if c.state.SynSent? {
      SynSentKeepsSent(c, seg, now, cfg);
    } else if !c.state.IsTerminal() && seg.ack <= c.snd.sent {
      InputAcknowledgedInv(c, seg, now, cfg);
    }
  }

  lemma SynSentKeepsSent(c: Conn, seg: Seg, now: Time, cfg: Config)
    requires Inv(c, cfg) && c.state.SynSent?
    ensures InputSynSent(c, seg, now, cfg).snd.sent == c.snd.sent
  {
    hide Establish, ReceiveData, HasSyn, HasAck, HasFin, HasRst, WithoutSyn;
    hide SenderInv, ReceiverInv, FlowInv;
    if seg.ack == c.snd.sent && c.snd.sent != c.snd.una {
      EstablishKeepsSent(c, seg, now, cfg);
      EstablishedInv(c, seg, now, cfg);
      ReceiveDataInv(Establish(c, seg, now, cfg), seg.(pos := seg.pos + 1, flags := WithoutSyn(seg.flags)), now, cfg);
    }
  }

  lemma EstablishKeepsSent(c: Conn, seg: Seg, now: Time, cfg: Config)
    requires Inv(c, cfg) && c.state.SynSent? && seg.ack == c.snd.sent && c.snd.sent != c.snd.una
    ensures Establish(c, seg, now, cfg).snd.sent == c.snd.sent
  {
    hide SweepFrom, UpdateRto, GrowWindow, InitialCwnd, RestartTimer, AnnouncesWindow, Wrap;
    hide SenderInv, ReceiverInv, FlowInv;
  }

  /** Transmission neither acknowledges nor aborts anything. */
  lemma TransmitKeepsUna(c: Conn, now: Time, cfg: Config, outcome: DeviceOutcome)
    requires Inv(c, cfg)
    ensures
      var d := Transmit(c, now, cfg, outcome);
      d.snd.una == c.snd.una && (d.state.IsAborted() ==> d == c)
  {
    hide PlanTransmit, MarkSubmitted, AfterSubmission, Emission, SenderInv, ReceiverInv, FlowInv;
    if !c.state.IsTerminal() {
      PlanInv(c, now, cfg);
      PlanKeepsUna(c, now, cfg);
    }
  }

  lemma PlanKeepsUna(c: Conn, now: Time, cfg: Config)
    ensures PlanTransmit(c, now, cfg).conn.snd.una == c.snd.una
  {
    hide MayPrepare, AfterIdle, Room, ChooseFlight, NewFlight, HasSyn, HasFin;
  }

  /** Calls and timers acknowledge nothing, receive nothing and do not abort with more submitted. */
  lemma CallEffect(c: Conn, op: Op, cfg: Config)
    requires Inv(c, cfg) && IsCall(op)
    ensures
      var d := Apply(c, op, cfg);
      && (!d.state.IsAborted() ==> d.snd.una == c.snd.una)
      && (d.state.IsAborted() ==> d.snd.sent == c.snd.sent)
      && d.rcv == c.rcv.(buffer := d.rcv.buffer, delivered := d.rcv.delivered)
  {
    hide SenderInv, ReceiverInv, FlowInv, Transmit, Expired, SendBuffered;
    if op.OpTransmit? {
      TransmitKeepsUna(c, op.at, cfg, op.outcome);
      TransmitInv(c, op.at, cfg, op.outcome);
    }
  }

  // ---------------------------------------------------------------- one direction, step by step

  /** The sender may move on as long as it acknowledges no more than was received. */
  lemma FlowAfterSender(x: Conn, y: Conn, channel: set<Seg>, out: set<Seg>, r: Receiver, cfg: Config)
    requires Flow(x, channel, r, cfg) && Extends(x, y) && Inv(y, cfg)
    requires !y.state.IsAborted() ==> y.snd.una <= Reach(r, x.snd.iss)
    requires y.state.IsAborted() ==> y.snd.sent == x.snd.sent
    requires forall seg :: seg in out ==> Genuine(y, seg)
    ensures Flow(y, channel + out, r, cfg)
  {
    SenderMarks(y.state, y.snd, cfg);
    forall seg | seg in channel ensures Genuine(y, seg) { GenuineForever(x, y, seg); }
    hide SenderInv, ReceiverInv, FlowInv, Genuine;
  }

  lemma FlowAfterReceiver(x: Conn, channel: set<Seg>, r: Receiver, q: Receiver, cfg: Config)
    requires Flow(x, channel, r, cfg) && Received(x.snd, q)
    requires r.known ==> q.known && r.next <= q.next
    ensures Flow(x, channel, q, cfg)
  {
    hide Genuine;
  }

  /** One endpoint does something that involves no arriving segment. */
  lemma FlowAfterCall(c: Conn, op: Op, channel: set<Seg>, r: Receiver, cfg: Config)
    requires Inv(c, cfg) && IsCall(op) && Flow(c, channel, r, cfg)
    ensures Inv(Apply(c, op, cfg), cfg) && Flow(Apply(c, op, cfg), channel, r, cfg)
  {
    ApplyInv(c, op, cfg);
    CallEffect(c, op, cfg);
    hide Apply, Inv, Genuine, Received;
    var d := Apply(c, op, cfg);
    FlowAfterSender(c, d, channel, {}, r, cfg);
    assert channel + {} == channel;
  }

  lemma ReceiverAfterCall(x: Conn, channel: set<Seg>, c: Conn, op: Op, cfg: Config, xcfg: Config)
    requires Inv(c, cfg) && IsCall(op) && Flow(x, channel, c.rcv, xcfg)
    ensures Flow(x, channel, Apply(c, op, cfg).rcv, xcfg)
  {
    CallEffect(c, op, cfg);
    hide Apply, Inv, Genuine;
    FlowAfterReceiver(x, channel, c.rcv, Apply(c, op, cfg).rcv, xcfg);
  }

  lemma FlowAfterSend(c: Conn, at: Time, channel: set<Seg>, r: Receiver, cfg: Config)
    requires Inv(c, cfg) && Flow(c, channel, r, cfg)
    ensures
      var (d, out) := Sent(c, at, cfg);
      Inv(d, cfg) && Flow(d, channel + out, r, cfg) && d.rcv == c.rcv
  {
    TransmitInv(c, at, cfg, Accepted);
    TransmitKeepsUna(c, at, cfg, Accepted);
    hide Transmit, PlanTransmit, Emission, Inv, Genuine, Received;
    if !c.state.IsTerminal() && Emits(PlanTransmit(c, at, cfg)) {
      EmissionGenuine(c, at, cfg);
    }
    var (d, out) := Sent(c, at, cfg);
    FlowAfterSender(c, d, channel, out, r, cfg);
  }

  /** The wire carries every segment unchanged. */
  lemma CarriedUnchanged(seg: Seg, padding: seq<byte>, source: Endpoint, destination: Endpoint)
    ensures
      var wire := ToWire(seg, source, destination);
      Carried(seg, padding, source, destination) == if TcpWire.Buildable(wire) then Some(wire) else None
  {
    hide ToWire, TcpWire.Parse, TcpWire.Datagram;
    var wire := ToWire(seg, source, destination);
    if TcpWire.Buildable(wire) {
      TcpWire.RoundTrip(wire, padding);
    }
  }

  /** A genuine segment from `x` arrives at `c`: both directions between them are kept. */
  lemma Arrival(x: Conn, xs: set<Seg>, xcfg: Config, c: Conn, cs: set<Seg>, cfg: Config,
                seg: Seg, padding: seq<byte>, at: Time, source: Endpoint, destination: Endpoint)
    requires Inv(x, xcfg) && Inv(c, cfg) && Flow(x, xs, c.rcv, xcfg) && Flow(c, cs, x.rcv, cfg)
    requires seg in xs && Fresh(c, seg)
    ensures
      var d := Arrives(c, Carried(seg, padding, source, destination), at, cfg);
      Inv(d, cfg) && Flow(x, xs, d.rcv, xcfg) && Flow(d, cs, x.rcv, cfg)
  {
    hide Inv, Flow, Input, Place, ToWire, Carried;
    CarriedUnchanged(seg, padding, source, destination);
    if Carried(seg, padding, source, destination).Some? {
      WireArrival(x, xs, xcfg, c, cs, cfg, seg, at, source, destination);
    }
  }

  lemma WireArrival(x: Conn, xs: set<Seg>, xcfg: Config, c: Conn, cs: set<Seg>, cfg: Config,
                    seg: Seg, at: Time, source: Endpoint, destination: Endpoint)
    requires Inv(x, xcfg) && Inv(c, cfg) && Flow(x, xs, c.rcv, xcfg) && Flow(c, cs, x.rcv, cfg)
    requires seg in xs && Fresh(c, seg)
    ensures
      var d := Input(c, Place(c, ToWire(seg, source, destination)), at, cfg);
      Inv(d, cfg) && Flow(x, xs, d.rcv, xcfg) && Flow(d, cs, x.rcv, cfg)
  {
    var placed := Place(c, ToWire(seg, source, destination));
    assert placed.flags == seg.flags;
    assert Genuine(x, seg);
    InputInv(c, placed, at, cfg);
    InputKeepsSent(c, placed, at, cfg);
    hide Place, ToWire, Input;
    if c.state.IsAborted() || (c.state.SynSent? && !HasSyn(seg.flags)) {
      ArrivalIgnored(c, placed, at, cfg);
    } else {
      AckInReach(x, c, cs, seg, cfg);
      PlacedGenuine(x, c, seg, cfg, source, destination);
      InputPrefix(x, c, placed, at, cfg);
      UnaMovesOnlyByAck(c, placed, at, cfg);
      ArrivalFlows(x, xs, xcfg, c, Input(c, placed, at, cfg), cs, cfg, placed);
    }
  }

  lemma ArrivalIgnored(c: Conn, seg: Seg, at: Time, cfg: Config)
    requires c.state.IsAborted() || (c.state.SynSent? && !HasSyn(seg.flags) && !HasRst(seg.flags))
    ensures Input(c, seg, at, cfg) == c
  {
    if c.state.SynSent? {
      SynSentIgnores(c, seg, at, cfg);
    }
  }

  /** What a genuine segment acknowledges has been submitted. */
  lemma AckInReach(x: Conn, c: Conn, cs: set<Seg>, seg: Seg, cfg: Config)
    requires Genuine(x, seg) && Flow(c, cs, x.rcv, cfg)
    ensures HasAck(seg.flags) ==> seg.ack <= Reach(x.rcv, c.snd.iss) && seg.ack <= c.snd.sent
  {
    hide Holds, HasSyn, HasFin, HasRst, HasAck;
  }

  lemma ArrivalFlows(x: Conn, xs: set<Seg>, xcfg: Config, c: Conn, d: Conn, cs: set<Seg>, cfg: Config, seg: Seg)
    requires Flow(x, xs, c.rcv, xcfg) && Flow(c, cs, x.rcv, cfg) && Genuine(x, seg)
    requires Inv(d, cfg) && Extends(c, d) && Received(x.snd, d.rcv) && d.snd.sent == c.snd.sent
    requires d.snd.una != c.snd.una && !d.state.IsAborted() ==> d.snd.una == seg.ack && HasAck(seg.flags)
    ensures Flow(x, xs, d.rcv, xcfg) && Flow(d, cs, x.rcv, cfg)
  {
    AckInReach(x, c, cs, seg, cfg);
    hide Inv, Genuine, Received;
    FlowAfterReceiver(x, xs, c.rcv, d.rcv, xcfg);
    FlowAfterSender(c, d, cs, {}, x.rcv, cfg);
    assert cs + {} == cs;
  }

  /** A reset, forged or not, aborts, provokes an acknowledgment or is ignored. */
  lemma ResetEffect(c: Conn, seg: Seg, at: Time, cfg: Config)
    requires HasRst(seg.flags)
    ensures
      var d := Input(c, seg, at, cfg);
      d == c || d == WantAck(c) || d == Fail(c, Reset)
  {
    hide HasRst, HasSyn, HasAck, HasFin, Acceptable;
  }

  lemma FlowsAfterReset(x: Conn, xs: set<Seg>, xcfg: Config, c: Conn, cs: set<Seg>, cfg: Config, seg: Seg, at: Time)
    requires Inv(c, cfg) && Flow(x, xs, c.rcv, xcfg) && Flow(c, cs, x.rcv, cfg) && HasRst(seg.flags)
    ensures
      var d := Input(c, seg, at, cfg);
      Inv(d, cfg) && Flow(x, xs, d.rcv, xcfg) && Flow(d, cs, x.rcv, cfg)
  {
    InputInv(c, seg, at, cfg);
    ResetEffect(c, seg, at, cfg);
    hide Input, Inv, Genuine;
    var d := Input(c, seg, at, cfg);
    FlowAfterReceiver(x, xs, c.rcv, d.rcv, xcfg);
    FlowAfterSender(c, d, cs, {}, x.rcv, cfg);
    assert cs + {} == cs;
  }

  /** As above while there is no other side yet. */
  lemma ResetAlone(c: Conn, cs: set<Seg>, r: Receiver, cfg: Config, seg: Seg, at: Time)
    requires Inv(c, cfg) && Flow(c, cs, r, cfg) && HasRst(seg.flags)
    ensures Inv(Input(c, seg, at, cfg), cfg) && Flow(Input(c, seg, at, cfg), cs, r, cfg)
    ensures Input(c, seg, at, cfg).rcv.known == c.rcv.known
  {
    InputInv(c, seg, at, cfg);
    ResetEffect(c, seg, at, cfg);
    hide Input, Inv, Genuine, Received;
    FlowAfterSender(c, Input(c, seg, at, cfg), cs, {}, r, cfg);
    assert cs + {} == cs;
  }

  /** The listener's new connection starts where the client's SYN says. */
  lemma Birth(x: Conn, xs: set<Seg>, xcfg: Config, seg: Seg, iss: u32, at: Time, cfg: Config, source: Endpoint,
              destination: Endpoint)
    requires Flow(x, xs, NOBODY, xcfg) && Inv(x, xcfg) && !x.rcv.known
    requires seg in xs && OpensConnection(seg.flags) && cfg.Valid()
    ensures
      var d := Passive(ToWire(seg, source, destination), iss, at, cfg);
      Inv(d, cfg) && Flow(x, xs, d.rcv, xcfg) && Flow(d, {}, x.rcv, cfg)
  {
    assert Genuine(x, seg);
    RemainderUnique(seg.pos, 0, seg.pos);
    var syn := ToWire(seg, source, destination);
    PassiveInv(syn, iss, at, cfg);
    var d := Passive(syn, iss, at, cfg);
    assert d.snd.una == d.snd.sent == d.snd.iss == iss;
    assert d.rcv.irs == x.snd.iss && d.rcv.next == x.snd.iss + 1;
    assert x.rcv.accepted == [] && !x.rcv.eof by { hide SenderInv; }
    hide Wrap, SenderInv, HasFin, HasSyn, HasAck, HasRst, Holds, Passive;
    FlowAfterReceiver(x, xs, NOBODY, d.rcv, xcfg);
  }

  // ---------------------------------------------------------------- the whole system

  lemma StartInv(iss: u32, at: Time, e: Ends)
    requires e.clientCfg.Valid() && e.serverCfg.Valid()
    ensures NetInv(Start(iss, at, e), e)
  {
    ActiveInv(iss, at, e.clientCfg);
    hide SenderInv;
  }

  lemma ClientStep(n: Net, step: Step, e: Ends)
    requires NetInv(n, e) && (step.ClientCalls? || step.ClientSends? || step.ResetClient?)
    ensures NetInv(Next(n, step, e), e)
  {
    hide Inv, Flow, Apply, Sent, Input, Place, HasRst;
    match step
    case ClientCalls(op) =>
      if IsCall(op) {
        FlowAfterCall(n.client, op, n.toServer, ServerReceiver(n), e.clientCfg);
        CallEffect(n.client, op, e.clientCfg);
        if n.server.Some? {
          ReceiverAfterCall(n.server.value, n.toClient, n.client, op, e.clientCfg, e.serverCfg);
        }
      }
    case ClientSends(at) =>
      FlowAfterSend(n.client, at, n.toServer, ServerReceiver(n), e.clientCfg);
    case ResetClient(segment, at) =>
      var seg := Place(n.client, segment);
      if HasRst(segment.flags) {
        PlaceFlags(n.client, segment);
        ResetAlone(n.client, n.toServer, ServerReceiver(n), e.clientCfg, seg, at);
        if n.server.Some? {
          FlowsAfterReset(n.server.value, n.toClient, e.serverCfg, n.client, n.toServer, e.clientCfg, seg, at);
        }
      }
  }

  lemma PlaceFlags(c: Conn, s: Segment)
    ensures Place(c, s).flags == s.flags
  {}

  lemma ServerStep(n: Net, step: Step, e: Ends)
    requires NetInv(n, e) && (step.ServerCalls? || step.ServerSends? || step.ResetServer?)
    ensures NetInv(Next(n, step, e), e)
  {
    hide Inv, Flow, Apply, Sent, Input, Place, HasRst;
    if n.server.Some? {
      var c := n.server.value;
      match step
      case ServerCalls(op) =>
        if IsCall(op) {
          FlowAfterCall(c, op, n.toClient, n.client.rcv, e.serverCfg);
          ReceiverAfterCall(n.client, n.toServer, c, op, e.serverCfg, e.clientCfg);
        }
      case ServerSends(at) =>
        FlowAfterSend(c, at, n.toClient, n.client.rcv, e.serverCfg);
      case ResetServer(segment, at) =>
        PlaceFlags(c, segment);
        if HasRst(segment.flags) {
          FlowsAfterReset(n.client, n.toServer, e.clientCfg, c, n.toClient, e.serverCfg, Place(c, segment), at);
        }
    }
  }

  lemma DeliveryStep(n: Net, step: Step, e: Ends)
    requires NetInv(n, e) && (step.ToServer? || step.ToClient?)
    ensures NetInv(Next(n, step, e), e)
  {
    hide Inv, Flow, Arrives, Passive, Carried, Fresh, OpensConnection, TcpWire.Buildable;
    match step
    case ToServer(seg, padding, at, iss) =>
      if seg in n.toServer {
        if n.server.Some? {
          if Fresh(n.server.value, seg) {
            Arrival(n.client, n.toServer, e.clientCfg, n.server.value, n.toClient, e.serverCfg, seg, padding, at,
                    e.clientAddress, e.serverAddress);
          }
        } else if OpensConnection(seg.flags) {
          CarriedUnchanged(seg, padding, e.clientAddress, e.serverAddress);
          Birth(n.client, n.toServer, e.clientCfg, seg, iss, at, e.serverCfg, e.clientAddress, e.serverAddress);
        } else {
          CarriedUnchanged(seg, padding, e.clientAddress, e.serverAddress);
        }
      }
    case ToClient(seg, padding, at) =>
      if seg in n.toClient && Fresh(n.client, seg) {
        Arrival(n.server.value, n.toClient, e.serverCfg, n.client, n.toServer, e.clientCfg, seg, padding, at,
                e.serverAddress, e.clientAddress);
      }
  }

  lemma {:induction false} RunNetInv(n: Net, steps: seq<Step>, e: Ends)
    requires NetInv(n, e)
    ensures NetInv(Run(n, steps, e), e)
    decreases |steps|
  {
    hide NetInv, Next;
    if steps != [] {
      var step := steps[0];
      if step.ToServer? || step.ToClient? {
        DeliveryStep(n, step, e);
      } else if step.ClientCalls? || step.ClientSends? || step.ResetClient? {
        ClientStep(n, step, e);
      } else {
        ServerStep(n, step, e);
      }
      RunNetInv(Next(n, step, e), steps[1..], e);
    }
  }

  // ---------------------------------------------------------------- what users of a connection rely on

  /** What `y` has delivered or holds is a prefix of what `x` wrote; its end of file means the whole
      stream; what `x` saw acknowledged has been received; and a normally closed `x` left nothing out. */
  predicate Reliable(x: Conn, y: Conn) {
    && y.rcv.delivered <= y.rcv.accepted <= x.snd.written
    && (!y.state.IsAborted() ==> y.rcv.delivered + y.rcv.buffer == y.rcv.accepted)
    && (y.rcv.eof ==> y.rcv.accepted == x.snd.written && x.snd.closed)
    && x.snd.iss <= x.snd.una
    && (!x.state.IsAborted() ==> AckedBytes(x.snd) <= y.rcv.accepted)
    && (x.state.Closed? ==> y.rcv.accepted == x.snd.written && y.rcv.eof)
  }

  lemma FlowReliable(x: Conn, xs: set<Seg>, xcfg: Config, y: Conn, cfg: Config)
    requires Inv(x, xcfg) && Inv(y, cfg) && Flow(x, xs, y.rcv, xcfg)
    ensures Reliable(x, y)
  {
    SenderMarks(x.state, x.snd, xcfg);
    if !x.state.IsAborted() {
      var k := Min(Max(x.snd.una - x.snd.iss - 1, 0), |x.snd.written|);
      assert k <= |y.rcv.accepted|;
      assert x.snd.written[..k] <= y.rcv.accepted;
    }
    if x.state.Closed? { FinFollowsEverything(x, xcfg); }
    hide SenderInv, FlowInv, Genuine;
  }

  /** In every run both directions are reliable, whatever the network does. */
  lemma NetworkReliable(iss: u32, at: Time, steps: seq<Step>, e: Ends)
    requires e.clientCfg.Valid() && e.serverCfg.Valid()
    ensures
      var n := Run(Start(iss, at, e), steps, e);
      n.server.Some? ==> Reliable(n.client, n.server.value) && Reliable(n.server.value, n.client)
  {
    hide Inv, Flow, Reliable, Run, Start;
    StartInv(iss, at, e);
    RunNetInv(Start(iss, at, e), steps, e);
    var n := Run(Start(iss, at, e), steps, e);
    if n.server.Some? {
      FlowReliable(n.client, n.toServer, e.clientCfg, n.server.value, e.serverCfg);
      FlowReliable(n.server.value, n.toClient, e.serverCfg, n.client, e.clientCfg);
    }
  }

  // ---------------------------------------------------------------- every emission can be carried

  /** A segment handed to the device can be built, fits the configured MTU, and is read back as it was. */
  lemma EmissionCarried(c: Conn, at: Time, padding: seq<byte>, cfg: Config, source: Endpoint, destination: Endpoint)
    requires Inv(c, cfg) && !c.state.IsTerminal() && Emits(PlanTransmit(c, at, cfg))
    ensures ValidPlan(PlanTransmit(c, at, cfg))
    ensures
      var seg := Emission(PlanTransmit(c, at, cfg), cfg);
      var wire := ToWire(seg, source, destination);
      && Carried(seg, padding, source, destination) == Some(wire)
      && TcpWire.Buildable(wire) && |TcpWire.Datagram(wire)| <= cfg.mtu
  {
    hide PlanTransmit, Carried, TcpWire.Datagram;
    PlanInv(c, at, cfg);
    var p := PlanTransmit(c, at, cfg);
    var seg := Emission(p, cfg);
    CarriedUnchanged(seg, padding, source, destination);
    if p.index.Some? {
      FlightFits(p.conn, p.index.value, cfg);
    }
    hide Inv, Wrap, HasSyn;
  }

  lemma FlightFits(c: Conn, index: nat, cfg: Config)
    requires Inv(c, cfg) && index < |c.snd.flights|
    ensures
      var f := c.snd.flights[index];
      cfg.Valid() && |f.payload| <= cfg.mss && (HasSyn(f.flags) ==> f.payload == [])
  {
    hide DataRun, PayloadBytes, ReceiverInv, FlowInv, ControlInv;
    assert SoundFlight(c.snd.flights[index], cfg);
    if c.state.IsOpen() {
      RunMember(c.snd.flights, c.snd.iss, c.snd.written, c.snd.una, c.snd.next, index);
    }
  }
}
