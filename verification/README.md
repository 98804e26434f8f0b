# Verification of async-net-stack-rs

A model of the parts of the stack that carry its guarantees, and proofs about that model. Each module
follows one component of the stack:

- **TCP.** `TcpModel` is the connection engine over unbounded sequence numbers, with history variables
  for the bytes written, accepted and delivered and for every submission. `TcpInvariants` is what every
  operation keeps. `TcpConnection` is the engine as it runs, with fields updated in place and 32-bit
  wrapping comparisons, proved to compute `TcpModel` for every input. `TcpProperties` holds the theorems
  about one connection over all runs; `TcpReception`, `TcpSending`, `TcpTimers` and `TcpEstimator` say what
  arrival, transmission, timers and congestion control do in terms of positions, times and bytes. `TcpNetwork` is two endpoints joined by a network that loses,
  duplicates, reorders and delays datagrams, carried as bytes.
- **Wire formats.** `InternetChecksum`, `Ipv4Wire`, `TcpWire`, `UdpWire` and `Responder`.
- **AF_XDP.** `XdpRings` (shared rings with wrapping indices and stale copies), `FramePool` and
  `XdpDevice` (one owner for every frame, whatever the kernel reports).
- **Shared-memory ring.** `ShmRing`: producer and consumer processes as interleaved atomic steps.
- **UDP.** `UdpScheduler` (round robin, order, pacing) and `UdpPool` (one outcome for every datagram).
- **Ethernet and ARP.** `EthernetQueues` and `EthernetAdapter`.
- **Guest memory.** `Iotlb`: a cache against a table of bytes.
- **Simulation.** `SimFabric`: the fabric and the access point.
- **DNS.** `DnsWire`, `DnsAliases` and `DnsResolver`.

`dafny verify dfyconfig.toml` checks the whole project.

How the source is represented:

- A `Duration` is a number of nanoseconds. The TCP modules keep the saturating operations of the source;
  the UDP, Ethernet, fabric and DNS modules add without a limit, except where the fabric advances its clock.
- A device is an environment that takes a prefix of what it is offered or nothing; its answers, frame
  allocation, random numbers and the kernel's descriptors are arguments.
- A position in a TCP sequence space is an unbounded integer in the model. A received 32-bit number is
  placed relative to what the connection expects (its sequence number) or has sent (its acknowledgment).
- Fields that only record history are marked as such where they are declared; no decision reads them.

Two branches of the source turn out to be unreachable and are kept as assertions or dead guards: giving
up in the middle of an acknowledgment because more than a payload was acknowledged
(`src/api/tcp/connection.rs:472-474`), and exceeding the alias limit by the hops of one response
(`src/dns/mod.rs:423`).

One sum can exceed 64 bits (`examples/support/vhost_user/memory.rs:234`). The model wraps it, which gives
the right translation; a build that checks for overflow stops there instead. `Iotlb.Memory.Translate`
says exactly for which entries that happens.

## Model

| member | source | states |
|---|---|---|
| SequenceNumbers.BeforeIsLess | src/transport/tcp.rs:184-187 | Within half the sequence space the wrapping comparison orders the unbounded numbers, in both directions. |
| SequenceNumbers.UnwrapExact | src/transport/tcp.rs:184-187 | A number less than 2^31 away from what a side expects is recovered exactly from its 32-bit image. |
| TcpFlights.SweepRun | src/api/tcp/connection.rs:456-484 | One pass over the flight queue removes exactly the bytes below the acknowledgment, including a partial first flight, and leaves a gapless run from there on. |
| TcpFlights.SampleIsSingleSubmission | src/api/tcp/connection.rs:452-490 | A sample survives a pass only if it is the time since the one submission of the newest flight completed and no flight touched was submitted twice. |
| TcpInvariants.SenderMarks | src/api/tcp/connection.rs:610-626 | The marks are ordered and the outstanding span is at most the send capacity plus one. |
| TcpInvariants.ActiveInv | src/api/tcp/connection.rs:83-132 | An active open establishes the invariant: tiling flights, byte conservation, buffer, window and timer bounds, phase by phase. |
| TcpInvariants.PassiveInv | src/api/tcp/connection.rs:134-145 | A passive open establishes it. |
| TcpInvariants.WriteInv | src/api/tcp/connection.rs:151-170 | Writing keeps it and never takes back anything earlier. |
| TcpInvariants.ReadInv | src/api/tcp/connection.rs:172-204 | Reading keeps it; delivered and buffered bytes remain what was accepted. |
| TcpInvariants.CloseInv | src/api/tcp/connection.rs:206-218 | Closing keeps it; nothing is written after a close. |
| TcpInvariants.FailInv | src/api/tcp/connection.rs:220-233 | Every kind of abort keeps it. |
| TcpInvariants.TickInv | src/api/tcp/connection.rs:249-273 | Timers keep it. |
| TcpInvariants.AcknowledgeInv | src/api/tcp/connection.rs:429-534 | Any acknowledgment of at most what was submitted keeps it and moves the oldest unacknowledged position to the larger of the two. |
| TcpInvariants.ReceiveDataInv | src/api/tcp/connection.rs:536-578 | Any data keeps it; the send side is untouched. |
| TcpInvariants.InputInv | src/api/tcp/connection.rs:302-427 | Any segment whatever, in any state, keeps it. |
| TcpInvariants.PrepareInv | src/api/tcp/connection.rs:703-750 | Creating a flight or a FIN keeps it. |
| TcpInvariants.TrimInv | src/api/tcp/connection.rs:796-806 | Returning bytes of an unsent flight to the queue keeps it: nothing is lost, duplicated or reordered. |
| TcpInvariants.TransmitInv | src/api/tcp/connection.rs:752-918 | Transmission keeps it, whatever the device answers. |
| TcpConnection.SweepRecords | src/api/tcp/connection.rs:456-484 | The loop over 32-bit records computes the unbounded pass: remaining flights, flags, sample and byte count. |
| TcpConnection.Requeue | src/api/tcp/connection.rs:797-799 | Pushing bytes back one by one puts them in front of the queue in order. |
| TcpConnection.MarkRecord | src/api/tcp/connection.rs:862-904 | The marks of a submission, for the first time or again, on the 32-bit records. |
| TcpConnection.Connection.Active | src/api/tcp/connection.rs:83-132 | The object starts as the image of the model's active open, of which `TcpSending.OpensWithSyn` and `TcpTimers.HandshakeBounded` speak. |
| TcpConnection.Connection.Passive | src/api/tcp/connection.rs:134-145 | The object starts as the image of the model's passive open, of which `TcpSending.OpensWithSyn` and `TcpTimers.HandshakeBounded` speak. |
| TcpConnection.Connection.Write | src/api/tcp/connection.rs:151-170 | Fields, result and errors are those of the model, which `TcpSending.WriteTakes` pins down. |
| TcpConnection.Connection.Read | src/api/tcp/connection.rs:172-204 | Fields, result and errors are those of the model, which `TcpSending.ReadReturns` pins down. |
| TcpConnection.Connection.Close | src/api/tcp/connection.rs:206-218 | Fields and acceptance are those of the model, which `TcpSending.CloseEnds` pins down. |
| TcpConnection.Connection.Fail | src/api/tcp/connection.rs:220-233 | Fields are those of the model, which `TcpSending.AbortEnds` pins down. |
| TcpConnection.Connection.Tick | src/api/tcp/connection.rs:249-273 | The decision is that of the model: by `TcpTimers.TickDecides` a timeout exactly if a deadline has come or the oldest flight is hopeless, and the end of TIME-WAIT exactly at its deadline. |
| TcpConnection.Connection.UpdateWindow | src/api/tcp/connection.rs:435-446 | The peer's window is taken exactly when the model takes it: by `TcpSending.NewestWindow` from the newest segment. |
| TcpConnection.Connection.RemoveAcknowledged | src/api/tcp/connection.rs:452-505 | Removal, sampling and timer restart by 32-bit arithmetic agree with the unbounded pass; what the estimator makes of a sample is stated by `TcpEstimator.FirstSample` and `NextSample`. |
| TcpConnection.Connection.Acknowledge | src/api/tcp/connection.rs:429-534 | The 32-bit comparisons act on an acknowledgment exactly as the unbounded ones. |
| TcpConnection.Connection.ReceiveData | src/api/tcp/connection.rs:536-578 | The wrapping offset selects the bytes that the model takes: by `TcpReception.ReceptionExact` exactly those from the expected position to the end of the payload or of the window. |
| TcpConnection.Connection.IsAcceptable | src/api/tcp/connection.rs:336-343 | The signed 32-bit test decides membership in the receive window, as `TcpReception.AcceptableIff` states it. |
| TcpConnection.Connection.SynSentInput | src/api/tcp/connection.rs:391-427 | Handshake segments are handled as in the model, of which `TcpReception.SynAckTaken` and `ResetExactly` speak. |
| TcpConnection.Connection.Input | src/api/tcp/connection.rs:302-389 | For every segment the 32-bit engine takes the step of the unbounded model. |
| TcpConnection.Connection.Prepare | src/api/tcp/connection.rs:703-750 | Queue, flights, window and state are those of the model, of which `TcpSending.SendsNew` and `SendsFin` speak. |
| TcpConnection.Connection.Admit | src/api/tcp/connection.rs:774-810 | The recheck of both windows and the trimming agree with the model, of which `TcpSending.SendsWaiting` speaks. |
| TcpConnection.Connection.RecordSubmission | src/api/tcp/connection.rs:858-906 | Bookkeeping after acceptance agrees with the model, congestion control included, of which `TcpSending.SendsAgain` and `TimeoutShrinks` speak. |
| TcpConnection.Connection.Transmit | src/api/tcp/connection.rs:752-918 | State, emitted segment and result are those of the model for every answer of the device; what is emitted, and the window it announces, are stated by `TcpSending.Announced`, `SendsNew`, `SendsAgain` and `SendsWaiting`. |
| TcpProperties.RunInv | src/api/tcp/connection.rs:82-918 | The invariant holds after every run of calls, timers, segments and transmissions, and no run takes back what was written, acknowledged, accepted or delivered. |
| TcpProperties.ReachableBounds | src/api/tcp/mod.rs:245-276 | In every reachable state the congestion window, all retransmission timeouts, both buffers and the outstanding span are within their bounds. |
| TcpProperties.StreamConserved | src/api/tcp/connection.rs:456-484 | Acknowledged, in-flight and queued bytes together are exactly what the application wrote. |
| TcpProperties.UnsentIsNewest | src/api/tcp/connection.rs:703-709 | Only the newest flight can be waiting for its first submission, and then it starts at the submission mark. |
| TcpProperties.EmissionGenuine | src/api/tcp/connection.rs:752-918 | Whatever is handed to the device carries the bytes written at its position, a FIN only behind all of them, and acknowledges only what was accepted. |
| TcpProperties.GenuineForever | src/api/tcp/connection.rs:774-808 | No later operation makes an emitted segment wrong. |
| TcpProperties.GenuineAgree | src/api/tcp/connection.rs:774-808 | Any two emitted segments agree on every byte they share, so a retransmission never changes content. |
| TcpProperties.FirstSubmissionFits | src/api/tcp/connection.rs:774-806 | After a first submission other than a SYN, what is in flight fits both windows, or it is the single byte that probes a closed window. |
| TcpProperties.RightEdgeNeverShrinks | src/api/tcp/connection.rs:646-648 | No operation moves the right edge of the receive window left or overfills the buffer. |
| TcpProperties.RightEdgeRun | src/api/tcp/connection.rs:646-648 | No run moves the right edge of the receive window left or overfills the buffer. |
| TcpProperties.UnaMoves | src/api/tcp/connection.rs:429-486 | The oldest unacknowledged position moves exactly when the acknowledgment lies beyond it, and then to it. |
| TcpProperties.UnaMovesOnlyByAck | src/api/tcp/connection.rs:302-486 | Short of an abort no segment moves it anywhere else, in any state. |
| TcpProperties.UnaMovesOnlyByInput | src/api/tcp/connection.rs:151-918 | No other operation moves it, short of an abort. |
| TcpProperties.FinFollowsEverything | src/api/tcp/connection.rs:738-745 | While a FIN exists, every written byte has been acknowledged and the FIN is the only flight. |
| TcpProperties.ClosedIsComplete | src/api/tcp/connection.rs:522-533 | A normally closed connection has the peer's FIN, the acknowledgment of its own, and nothing queued or in flight. |
| TcpProperties.SampleRule | src/api/tcp/connection.rs:452-505 | The estimator is fed only the time since the sole submission of the newest flight acknowledged, with no retransmitted flight involved (Karn's rule, section 3 of RFC 6298); otherwise it is left alone, save that a repeated handshake sets the timeout to three seconds within its bounds. |
| TcpProperties.NothingBeforeDeadline | src/api/tcp/connection.rs:275-300 | Before the reported deadline no timer acts and nothing is due. |
| TcpReception.AcceptableIff | src/api/tcp/connection.rs:334-343 | The acceptance test passes exactly if the segment and the receive window share a position, or an empty segment lies in the window or at its start. |
| TcpReception.ReceptionExact | src/api/tcp/connection.rs:345-389 | A regular segment in order adds exactly the bytes from the expected position to the end of its payload or of the window, each at its own position; its FIN counts exactly if everything before it is taken and its position is in the window; no other segment adds anything. |
| TcpReception.StateMoves | src/api/tcp/connection.rs:376-389 | The state diagram of RFC 9293: how the acknowledgment of a FIN and the arrival of the peer's move the state, alone and together; TIME-WAIT gets its full time, and whatever occupies sequence space is acknowledged. |
| TcpReception.ResetExactly | src/api/tcp/connection.rs:354-361 | A reset takes effect exactly at the expected position inside the window, or when it acknowledges the SYN; elsewhere in the window it is answered, and TIME-WAIT ignores it. |
| TcpReception.MerelyAnswered | src/api/tcp/connection.rs:345-375 | A segment outside the window, with a SYN, or acknowledging what was never sent changes nothing but that it is answered. |
| TcpReception.TimeWaitKept | src/api/tcp/connection.rs:312-324 | No segment ends TIME-WAIT, and the peer's FIN again starts its time afresh. |
| TcpReception.SynAckTaken | src/api/tcp/connection.rs:391-427 | Exactly a SYN that acknowledges ours establishes the connection; its window, segment size and payload are taken. |
| TcpTimers.RunSettled | src/api/tcp/connection.rs:82-918 | In every run each state has exactly the deadlines it should have; the handshake's and the closing deadline stand until they are met. |
| TcpTimers.TickDecides | src/api/tcp/connection.rs:249-273 | TIME-WAIT ends exactly at its deadline; any other connection times out exactly if a deadline has come, or the oldest flight is older than the send timeout or due with its submissions used up. |
| TcpTimers.TickLeaves | src/api/tcp/connection.rs:249-273 | A connection that goes on is before its deadlines, and its oldest flight is young and persisting, not due, or has submissions left. |
| TcpTimers.HandshakeBounded | src/api/tcp/connection.rs:263-271 | In every run, a handshake still open after a tick is younger than its timeout. |
| TcpTimers.CloseBounded | src/api/tcp/connection.rs:263-271 | In every run after a close, a connection neither done nor in TIME-WAIT after a tick is within the close timeout. |
| TcpTimers.SendBounded | src/api/tcp/connection.rs:263-271 | In every run without progress of the acknowledgment, a connection that goes on after a tick has had its oldest flight for less than the send timeout. |
| TcpTimers.DeadlineNeeded | src/api/tcp/connection.rs:275-300 | The reported deadline is no earlier than needed: when it comes something is due, and without one nothing waits for time. |
| TcpEstimator.FirstSample | src/api/tcp/connection.rs:598-608 | A first sample is the estimate, half of it the variation, and the timeout follows from both. |
| TcpEstimator.NextSample | src/api/tcp/connection.rs:588-608 | A sample pulls the estimate an eighth of the way and the variation a quarter of the way, up to rounding below two units; the timeout is the estimate and four variations, at least a millisecond, within its bounds (section 2 of RFC 6298). |
| TcpEstimator.SamplesBound | src/api/tcp/connection.rs:586-608 | Over any run of samples from an interval the estimate stays in it, up to seven nanoseconds, and the variation is bounded. |
| TcpEstimator.SlowStart | src/api/tcp/connection.rs:514-516 | In slow start an acknowledgment opens the window by what it covers, at most one segment. |
| TcpEstimator.Avoidance | src/api/tcp/connection.rs:517-526 | In congestion avoidance the window opens by exactly one segment for each whole window acknowledged, over any run of acknowledgments. |
| TcpEstimator.InitialWindow | src/api/tcp/connection.rs:632-644 | The initial window has two, three or four segments by their size, one after a repeated SYN, and never more than configured. |
| TcpSending.Announced | src/api/tcp/connection.rs:821-848 | Every segment acknowledges all that was received and offers exactly the free space within the limit; a SYN, and nothing else, offers the configured segment size. |
| TcpSending.AnnouncedRun | src/api/tcp/connection.rs:646-648 | Of any two segments of a run, the later one acknowledges and offers no less. |
| TcpSending.OwedAck | src/api/tcp/connection.rs:812-818 | An acknowledgment that is owed leaves with the next segment and stays owed until one has left. |
| TcpSending.SendsAgain | src/api/tcp/connection.rs:761-776 | The oldest flight is sent again when its timer has run out, with the same bytes; its timeout doubles up to the limit, and no flight is timed any more. |
| TcpSending.TimeoutShrinks | src/api/tcp/connection.rs:868-889 | A timeout shrinks the window to one segment; the first one of a flight also sets the threshold to half of what was in flight, and later ones keep it. |
| TcpSending.SendsNew | src/api/tcp/connection.rs:703-736 | New data leaves as soon as both windows allow it and exactly as much as they allow: the front of the queue at the first position not sent before; after idling the window is at most the initial one. |
| TcpSending.SendsWaiting | src/api/tcp/connection.rs:774-810 | A flight refused by the device so far leaves as soon as it fits, cut to what fits, and the rest returns to the front of the queue. |
| TcpSending.SendsFin | src/api/tcp/connection.rs:737-745 | Once everything is acknowledged, a closed connection sends its FIN behind it and moves on. |
| TcpSending.ProbesWindow | src/api/tcp/connection.rs:746-748 | With a closed window the FIN waits, and the window is probed whenever the probe timer has run out. |
| TcpSending.OpensWithSyn | src/api/tcp/connection.rs:83-145 | The first segment of either way of opening is the SYN; that of a passive open acknowledges the peer's, whose window and segment size are known. |
| TcpSending.AnswersAgain | src/api/tcp/connection.rs:326-334 | The peer's SYN again brings the answer again at once, and is no further attempt. |
| TcpSending.WriteTakes | src/api/tcp/connection.rs:151-170 | A write takes as many bytes as there is room for beside what is not yet acknowledged, and fails exactly if the write side is not open or there is no room. |
| TcpSending.ReadReturns | src/api/tcp/connection.rs:172-204 | A read hands over the next bytes of the peer's stream and offers the space again; with none left it reports the end exactly if the peer has finished or the connection is closed. |
| TcpSending.CloseEnds | src/api/tcp/connection.rs:206-218 | A close is accepted exactly once the connection is established; it ends writing and loses nothing. |
| TcpSending.AbortEnds | src/api/tcp/connection.rs:220-233 | An abort drops both buffers, sends nothing more and tells the reader why. |
| TcpSending.WindowConsidered | src/api/tcp/connection.rs:429-446 | Every regular segment that is not old has its window considered, whether or not it acknowledges anything new. |
| TcpSending.NewestWindow | src/api/tcp/connection.rs:435-446 | The peer's window is taken from the newest segment by position and then by acknowledgment, and an open window ends persisting. |
| TcpSending.AckProgress | src/api/tcp/connection.rs:486-528 | An acknowledgment that moves forward grows the congestion window for the bytes it covers and starts the timer of what is left afresh. |
| TcpTimers.SynProgress | src/api/tcp/connection.rs:507-511 | When the SYN is acknowledged, the congestion window is the initial one. |
| TcpSending.SampleTaken | src/api/tcp/connection.rs:452-490 | Flights submitted once and never restarted are timed: completing them gives the time since the last of them was submitted. |
| TcpNetwork.InputPrefix | src/api/tcp/connection.rs:302-427 | Whatever arrives from a peer, the receiver holds a prefix of that peer's stream. |
| TcpNetwork.PlacedGenuine | src/api/tcp/connection.rs:334-338 | A segment less than 2^31 numbers old is placed where it belongs. |
| TcpNetwork.RunNetInv | src/api/tcp/mod.rs:599-669 | The two-endpoint invariant survives every run of the network, with loss, duplication, reordering, padding, device refusals and injected resets. |
| TcpNetwork.NetworkReliable | src/api/tcp/connection.rs:302-578 | In every run, both ways: delivered bytes are a prefix of what the other side wrote, acknowledged bytes have been received, end of file means the whole stream, and a normal close left nothing out. |
| TcpNetwork.EmissionCarried | src/api/tcp/connection.rs:826-848 | Every emission can be built, fits the MTU, and is parsed back as it was. |
| InternetChecksum.SumWords | src/net/mod.rs:20-32 | The loop computes the sum of big-endian words, odd lengths included, within a bound that excludes overflow. |
| InternetChecksum.FinishSum | src/net/mod.rs:34-40 | Folding carries computes the complement of the residue modulo 65535. |
| InternetChecksum.FieldVerifies | src/net/mod.rs:14-18 | A checksum stored in its zeroed field, or 0xffff for 0, makes the message verify. |
| InternetChecksum.ByteChangeDetected | src/net/mod.rs:14-18 | No change of a single byte goes unnoticed. |
| Ipv4Wire.PutHeader | src/transport/udp.rs:36-48 | The header is written in place, with its checksum, and nothing else is touched. |
| Ipv4Wire.HeaderLayout | src/transport/udp.rs:36-48 | Where the fields of the header are (section 3.1 of RFC 791). |
| Ipv4Wire.HeaderIntact | src/transport/udp.rs:132-146 | A written header passes the parser's checks and carries its fields, whatever follows. |
| Ipv4Wire.TransportChecksum | src/transport/tcp.rs:42-50 | The checksum over pseudo-header and message. |
| TcpWire.BuildIpv4 | src/transport/tcp.rs:121-175 | Succeeds exactly for buildable segments that fit, writes exactly the datagram, and leaves the rest of the frame. |
| TcpWire.SegmentLayout | src/transport/tcp.rs:140-175 | Where ports, numbers, header length, flags, window, segment size and payload are (section 3.1 of RFC 9293). |
| TcpWire.ParseOptions | src/transport/tcp.rs:72-106 | The loop reads the options: one MSS, unknown ones skipped, malformed ones refused. |
| TcpWire.ParseIpv4 | src/transport/tcp.rs:52-118 | The method computes the specification of parsing. |
| TcpWire.RoundTrip | src/transport/tcp.rs:52-175 | Parsing undoes building for every buildable segment, with or without MSS, whatever padding follows. |
| TcpWire.Injective | src/transport/tcp.rs:121-175 | Different segments build different datagrams. |
| TcpWire.ByteChangeRejected | src/transport/tcp.rs:52-71 | No datagram still parses after one of its bytes has changed. |
| TcpWire.ParsedBounds | src/transport/tcp.rs:52-118 | Parsed payloads are short and a parsed MSS is never zero. |
| UdpWire.BuildIpv4 | src/transport/udp.rs:17-58 | Succeeds exactly for messages that fit, writes exactly the datagram, and leaves the rest of the frame. |
| UdpWire.DatagramLayout | src/transport/udp.rs:30-58 | Where ports, length and payload are, and that the checksum is never zero (RFC 768). |
| UdpWire.ParseIpv4 | src/transport/udp.rs:124-162 | The method computes the specification of parsing. |
| UdpWire.RoundTrip | src/transport/udp.rs:17-58 | Parsing undoes building for every message, odd and even, with a checksum of zero sent as 0xffff (RFC 768). |
| UdpWire.ByteChange | src/transport/udp.rs:136-152 | A changed byte makes a checksummed datagram unreadable, except exactly when it zeroes the checksum field, and then the message is unchanged. |
| Responder.Classify | src/net/mod.rs:109-172 | A packet is answered as UDP exactly when it parses and is for this address and port, as ICMP exactly when it is an intact echo request to it, is malformed exactly when its header is damaged or a message to this host is, and is ignored otherwise. |
| Responder.BuiltForUs | src/net/mod.rs:149-172 | A datagram built for this address and port concerns it, and one for another does not. |
| Responder.Respond | src/net/mod.rs:109-190 | The packet is rewritten in place to exactly the reply, or left alone. |
| Responder.UdpReplyParses | src/net/mod.rs:159-191 | A UDP reply parses to the same payload with the endpoints exchanged. |
| Responder.EchoReplyVerifies | src/net/mod.rs:142-191 | An echo reply verifies, returns to its sender and carries the same data. |
| XdpRings.SlotOf | src/device/backend/af_xdp/umem.rs:172-175 | Wrap of the 32-bit index does not disturb the slots. |
| XdpRings.ProducerRing.FreeSlots | src/device/backend/af_xdp/umem.rs:355-366 | The room reported is never more than there is, and exact when it is less than needed. |
| XdpRings.ProducerRing.Push | src/device/backend/af_xdp/umem.rs:374-385 | Exactly as many items as fit are appended in order; no entry still in the ring is overwritten. |
| XdpRings.ProducerRing.KernelTake | src/device/backend/af_xdp/socket.rs:173-184 | The consumer gets the pushed entries once each and in order. |
| XdpRings.ReserveThenPush | src/device/backend/af_xdp/device.rs:343-371 | Reserved slots stay reserved whatever the kernel does in between: the number pushed is the number reserved. |
| XdpRings.ConsumerRing.KernelPut | src/device/backend/af_xdp/socket.rs:155-172 | What the kernel adds comes after everything it has added before, and no entry still in the ring is overwritten. |
| XdpRings.ConsumerRing.Pop | src/device/backend/af_xdp/umem.rs:388-400 | Completions come out once each and in order, up to the limit. |
| XdpRings.ConsumerRing.PopBatch | src/device/backend/af_xdp/socket.rs:155-172 | Received descriptors come out once each and in order, up to the limit. |
| FramePool.Pigeonhole | src/device/buffer_pool.rs:122-161 | Distinct frames never outnumber the list, so no write to it is out of range. |
| FramePool.Pool.constructor | src/device/buffer_pool.rs:41-59 | A new pool holds every frame once. |
| FramePool.Pool.Alloc | src/device/buffer_pool.rs:109-119 | Takes the last frame of the list, or reports that there is none. |
| FramePool.Pool.Free | src/device/buffer_pool.rs:122-128 | Appends a frame that is not in the list. |
| FramePool.Pool.AllocN | src/device/buffer_pool.rs:130-142 | Takes as many as there are of the last frames, in order. |
| FramePool.Pool.FreeN | src/device/buffer_pool.rs:145-161 | Appends several frames in order. |
| XdpDevice.OneOwner | src/device/backend/af_xdp/device.rs:100-103 | Every frame has exactly one of four owners. |
| XdpDevice.Settle | src/device/backend/af_xdp/device.rs:250-268 | Whatever the completion ring returns, each frame being sent comes back once and no other does. |
| XdpDevice.DecodeIff | src/device/backend/af_xdp/device.rs:407-412 | A descriptor is decoded exactly if it describes some bytes, all of them in one frame of the region. |
| XdpDevice.Receive | src/device/backend/af_xdp/device.rs:317-342 | Whatever the RX ring returns, each reported frame gets one handle inside its own frame, and no other does. |
| XdpDevice.Device.constructor | src/device/backend/af_xdp/device.rs:188-206 | All frames start in the pool. |
| XdpDevice.Device.DrainCq | src/device/backend/af_xdp/device.rs:250-268 | Exactly the frames confirmed as sent come back, and pool and pending count change by their number. |
| XdpDevice.Device.Refill | src/device/backend/af_xdp/device.rs:269-296 | Publishes exactly the budget or the ring's room, never beyond the target and never into the reserve for sending. |
| XdpDevice.Device.Progress | src/device/backend/af_xdp/device.rs:242-249 | Confirmed frames come back, and then reception gets exactly what it may have of all that is free. |
| XdpDevice.Device.Recv | src/device/backend/af_xdp/device.rs:317-342 | Each frame that was waiting and is reported gets one handle; handles are on distinct frames that nobody held, describe what was received and number at most what was asked for. Frames confirmed as sent have come back, and reception was refilled first. |
| XdpDevice.Device.Send | src/device/backend/af_xdp/device.rs:343-378 | Refuses before taking anything, or hands exactly the allowed prefix to the kernel; exactly the frames confirmed as sent have come back, and no other frame changes hands. |
| XdpDevice.Device.Alloc | src/device/backend/af_xdp/device.rs:379-388 | A new handle is on a frame that nobody held; an empty pool first takes back what was sent, and none means that it is still empty. |
| XdpDevice.Device.AllocBatch | src/device/backend/af_xdp/device.rs:389-401 | New handles are on distinct frames that nobody held, as many as asked for or as there are once confirmed frames have come back. |
| XdpDevice.Device.Drop | src/device/buffer_pool.rs:344-351 | A dropped handle's frame returns to the pool although the device's table is not told. |
| ShmRing.FramesApart | examples/support/shm_nic.rs:190-196 | Frames of different slots do not overlap and stay in the mapping. |
| ShmRing.Generate | examples/support/shm_nic.rs:449-459 | The frame is filled in place with the generated content. |
| ShmRing.ValidIffGenerated | examples/support/shm_nic.rs:465-476 | The full check accepts exactly the generated frame. |
| ShmRing.NeverOverwrites | examples/support/shm_nic.rs:551-569 | The producer never touches a slot that the consumer has not given back. |
| ShmRing.ReadsWhatWasWritten | examples/support/shm_nic.rs:570-586 | The consumer reads the descriptor and frame written for its sequence number, so its checks succeed. |
| ShmRing.RunKeeps | examples/support/shm_nic.rs:517-603 | The invariant survives every interleaving of the steps of both processes. |
| ShmRing.EveryInterleaving | examples/support/shm_nic.rs:517-603 | Under every schedule and across both phases the counters stay within a ring of each other, no error is reported, and frames are read exactly once and in order. |
| ShmRing.NoDeadlock | examples/support/shm_nic.rs:503-603 | Unless both processes have finished, one of them can go on. |
| ShmRing.AlwaysCompletable | examples/support/shm_nic.rs:503-603 | Whatever schedule has run so far, some continuation finishes both processes. |
| UdpScheduler.PushConsistent | src/api/udp/mod.rs:142-174 | An admitted datagram keeps the order of ids, every count and every bound. |
| UdpScheduler.AdmissionMeans | src/api/udp/mod.rs:142-162 | A datagram is turned away exactly if the queue is full, its destination has its share, or it needs a place that no destination leaves; exactly destinations without a claim are forgotten. |
| UdpScheduler.RemoveConsistent | src/api/udp/mod.rs:175-180 | Removal keeps them, and the count it lowers is positive. |
| UdpScheduler.Best | src/api/udp/mod.rs:199-212 | The chosen datagram is eligible and comes before every other eligible one in the order of the round. |
| UdpScheduler.CandidateIsOldest | src/api/udp/mod.rs:184-213 | In both modes the choice is the oldest datagram of its destination. |
| UdpScheduler.CandidateIff | src/api/udp/mod.rs:184-213 | There is a candidate exactly if some datagram may leave; without fairness, exactly if the oldest one may. |
| UdpScheduler.Fair | src/api/udp/mod.rs:199-216 | Over consecutive choices, while another destination is eligible and passed over, a destination served once is not served again. |
| UdpScheduler.SpacingEnough | src/api/udp/mod.rs:237-247 | The rounded-up spacing is never too short for the rate. |
| UdpScheduler.SpacingLeast | src/api/udp/mod.rs:237-247 | A nanosecond less would not be enough. |
| UdpScheduler.ChargeMeans | src/api/udp/mod.rs:215-220 | An acceptance makes the pool and its destination wait for just the time of the bytes, and nobody else. |
| UdpScheduler.PacedNext | src/api/udp/mod.rs:215-220 | Another acceptance keeps the pace: any stretch, without its last datagram, took at least its time. |
| UdpPool.WholeRun | src/api/mod.rs:144-156 | Over the life of a pool ids to one destination only grow; since the last reset, and everything accepted since then is covered, the pace is kept globally and per destination; ids issued are those settled or queued. |
| UdpPool.FairRun | src/api/mod.rs:362-387 | In every history of a pool with fair queueing: between two acceptances of one destination, every other that is eligible at each choice in between is accepted. |
| UdpPool.SubmitKeeps | src/api/mod.rs:381-387 | Accepting the candidate keeps order, pace, counts, accounting and the round. |
| UdpPool.Pool.Purge | src/api/mod.rs:351-359 | Exactly the doomed datagrams are dropped, each counted once. |
| UdpPool.Pool.Advance | src/api/mod.rs:343-361 | Time never goes back; exactly the expired datagrams leave the queue. |
| UdpPool.Pool.Unbind | src/api/mod.rs:159-175 | Exactly the datagrams of the endpoint leave the queue, each counted. |
| UdpPool.Pool.InstallServices | src/api/mod.rs:201-210 | Everything queued is dropped and counted, and the scheduler starts afresh. |
| UdpPool.ObjectionReal | src/api/mod.rs:278-296 | Nothing is refused unless something stands against it, and the objection named is one that does. |
| UdpPool.Pool.Send | src/api/mod.rs:250-328 | A datagram is queued last under the next id, due at the earlier of its two deadlines, or it is refused for the first objection in order and the queue is unchanged; the place in the round and every pace mark stay. |
| UdpPool.StaysWaiting | src/api/mod.rs:362-387 | While a datagram has had no outcome, its destination is eligible at every choice of a flush unless it is served or declined in between: what `FairRun` asks for. |
| UdpPool.Pool.Flush | src/api/mod.rs:362-415 | Each datagram taken from the queue is submitted or dropped; as many are submitted as the device accepted, each of them one that was queued, and they join the history of the round and of the pace. Each choice was made at this time, from what was left of the queue at the start, past destinations the device has declined only; the pace of a destination not served stands. With budget left over, no candidate remains that the device has not just declined. |
| EthernetQueues.ReleaseInLine | src/net/interface.rs:519-533 | Released packets overtake only packets of other next hops. |
| EthernetQueues.AcceptInLine | src/net/interface.rs:771-828 | A new packet joins the end of its next hop's line. |
| EthernetAdapter.Release | src/net/interface.rs:519-533 | One turn through the waiting packets moves exactly the resolved ones, in order. |
| EthernetAdapter.Adapter.Send | src/net/interface.rs:721-839 | Everything is refused untouched, exactly when the prefix that fits holds a packet to refuse, with the first reason; otherwise packets are queued in order until one finds its line or the table full. Known addresses are not disturbed. |
| EthernetAdapter.Adapter.AcceptVia | src/net/interface.rs:780-824 | A packet is framed if its address is known, else waits behind a resolution, new or running, unless its line or the table is full. |
| EthernetAdapter.Adapter.Advance | src/net/interface.rs:368-436 | Packets whose resolution is over are dropped and counted, those whose address is known become ready in order, and the device takes a prefix; none vanishes otherwise. Of the table, exactly what is out of date goes, exactly unanswered resolutions fail, and exactly the probes due are queued, as far as frames and places last, one attempt further each; what is known has not changed. Before the table's deadline the table does not change. |
| EthernetAdapter.Adapter.GiveUp | src/net/interface.rs:385-399 | A timed-out resolution drops and counts exactly its packets, cancels exactly its probes, and is retried only after a delay. |
| EthernetAdapter.Adapter.Flush | src/net/interface.rs:535-555 | What the device takes leaves in order, ARP messages first; data only when no ARP message is left; none is lost or repeated. |
| EthernetAdapter.Adapter.Learn | src/net/interface.rs:565-586 | An address is learned, and exactly its probes are cancelled, unless the entry is static or the table is full; nobody who waits is lost. |
| EthernetAdapter.LastWord | src/net/interface.rs:588-649 | A request to this host makes its sender's address known, and the last message from an address has the last word, unless the address is static or the table is full. |
| EthernetAdapter.Adapter.Visit | src/net/interface.rs:377-433 | One entry: gone if out of date, failed if unanswered for too long, asked for again exactly if that is due and there are a frame and a place for it. |
| EthernetAdapter.Adapter.Recv | src/net/interface.rs:588-719 | Packets for this host are handed up in order. What the ARP messages teach, one after the other, takes effect, and requests to this host are answered as far as frames and places last; static addresses stay, and any other known address was known before or was taught. Then follows the work of `Advance`; a failing device changes nothing. |
| EthernetAdapter.Adapter.AddStatic | src/net/interface.rs:325-355 | A usable address takes effect at once unless the table is full: packets that may carry another one are dropped and counted, otherwise those that waited for it are released in order. |
| EthernetAdapter.Adapter.Discard | src/net/interface.rs:479-489 | Queued packets become configuration drops, resolutions are forgotten. |
| EthernetAdapter.Adapter.RemoveNeighbor | src/net/interface.rs:316-322 | The entry is gone, what was queued is dropped and counted, and an unknown address changes nothing. |
| EthernetAdapter.Adapter.ResetLink | src/net/interface.rs:359-363 | Exactly the static neighbours survive; what was queued is dropped and counted. |
| EthernetAdapter.Adapter.Reconfigure | src/net/interface.rs:241-257 | A new or withdrawn address drops and counts everything queued. |
| EthernetAdapter.Adapter.NextDeadline | src/net/interface.rs:440-458 | The result is the earliest deadline in the table. |
| EthernetAdapter.BeforeDeadline | src/net/interface.rs:440-458 | Before it no entry is due. |
| EthernetAdapter.DeadlineNeeded | src/net/interface.rs:440-458 | The deadline is no earlier than needed: when it comes, an entry is out of date or a probe is due. |
| Iotlb.OverlapIff | examples/support/vhost_user/memory.rs:246-253 | The subtractions decide whether two ranges share a byte, even where an end exceeds 64 bits. |
| Iotlb.InvalidateKeeps | examples/support/vhost_user/memory.rs:157-166 | After an invalidation no stale translation survives. |
| Iotlb.LookupSound | examples/support/vhost_user/memory.rs:221-232 | What the cache answers for a byte is what the latest update says, with permission. |
| Iotlb.FindRegion | examples/support/vhost_user/memory.rs:191-208 | A span is found exactly when one region holds the whole range. |
| Iotlb.Memory.Replace | examples/support/vhost_user/memory.rs:142-155 | Accepts exactly pairwise separate regions and then forgets every translation. |
| Iotlb.Memory.Invalidate | examples/support/vhost_user/memory.rs:157-166 | The table loses exactly the range, the cache every entry that touches it. |
| Iotlb.Memory.Update | examples/support/vhost_user/memory.rs:168-185 | Accepts exactly valid ranges inside shared memory; the table says so byte for byte, the cache keeps what the range does not touch, less its oldest quarter if full, and gains the range. |
| Iotlb.Memory.Translate | examples/support/vhost_user/memory.rs:210-243 | Every byte of a translated range is where the table says and may be accessed; a miss names the first byte that is not cached; other failures occur exactly without a contiguous translation into one region. Says exactly, whatever the outcome, when a sum on the way to where the walk ends exceeds 64 bits. |
| Iotlb.OverflowExists | examples/support/vhost_user/memory.rs:234-234 | There is a cached translation although the sum on the way to it exceeds 64 bits. |
| Iotlb.LowEntries | examples/support/vhost_user/memory.rs:234-234 | No sum exceeds 64 bits if no entry has addresses that add up to that. |
| SimFabric.Disconnected | src/simulation.rs:58-65 | Everything to or from a port is purged everywhere and counted, and nothing else. |
| SimFabric.SortByTime | src/simulation.rs:195-196 | The stable sort orders by due time, then by sending, and keeps every frame. |
| SimFabric.Fabric.AddPort | src/simulation.rs:73-114 | A port is added exactly when its addresses are new and usable; other ports and routes stay. |
| SimFabric.Fabric.Recv | src/simulation.rs:188-202 | Due frames arrive by due time and then by sending, none due is left behind short of the limit, nothing is lost, and both ends of each have been online without a break since it was sent. |
| SimFabric.Fabric.SendOne | src/simulation.rs:218-322 | A frame meets backpressure, which counts itself and changes nothing else, or is taken. A taken unicast frame is unroutable, offline, lost on its link or queued last with its due time; a broadcast makes one copy for each other online port, which is lost, finds no place or is queued. Offered frames, every counter, queues and links change by exactly that. |
| SimFabric.UnicastMeans | src/simulation.rs:226-262 | Exactly one thing happens to a unicast frame, and what decides it. |
| SimFabric.CopyMeans | src/simulation.rs:280-307 | A copy that its link carries is queued exactly if there is a place and a frame for it. |
| SimFabric.Fabric.Send | src/simulation.rs:204-325 | An offline port or an invalid first frame is refused without effect; otherwise frames are taken one by one up to the first invalid or congested one, and the counters grow by exactly the sum of what became of each frame and copy. |
| SimFabric.RanSum | src/simulation.rs:204-325 | Over any run of frames the offered count and the counters change by exactly the sum of the fates. |
| SimFabric.LossPattern | src/simulation.rs:267-285 | After a link is set, frame `n` is lost exactly if the link is cut, the frame is too long, or its 64-bit number is a multiple of the period; every second frame waits longer. |
| SimFabric.LossCount | src/simulation.rs:267-285 | Of the first `n` frames that fit, a link loses exactly `n` divided by its period. |
| SimFabric.Fabric.SetLink | src/simulation.rs:116-132 | A link that is set starts counting afresh; every other link and everything queued stays. |
| SimFabric.Fabric.Advance | src/simulation.rs:134-142 | The clock moves on, unless it would overflow, and nothing else does. |
| SimFabric.Fabric.Disassociate | src/simulation/access_point.rs:69-73 | Exactly a departing port's frames are gone from every queue, in order, and counted. |
| SimFabric.Fabric.Remove | src/simulation.rs:168-175 | Exactly a dropped device's frames and routes are gone, in order and counted; the rest stays. |
| SimFabric.Fabric.Associate | src/simulation/access_point.rs:55-65 | Only a running access point associates, and nothing old is revived. |
| SimFabric.Fabric.Stop | src/simulation/access_point.rs:41-51 | Every port is offline, every queue is empty and every purged frame is counted. |
| DnsWire.NormalizeNormal | src/dns/wire.rs:5-21 | A normalized name has valid labels and length. |
| DnsWire.NormalizeMeans | src/dns/wire.rs:5-21 | A normalized name is the name given but for a final dot and for case, and normalizing again changes nothing. |
| DnsWire.ParseName | src/dns/wire.rs:50-95 | The loop computes the specification of reading a compressed name. |
| DnsWire.ParseNameMeans | src/dns/wire.rs:50-95 | A name, compressed or not, is read exactly if it spells valid labels within 128 steps that make at most 253 bytes, and then as those labels joined; its text lies inside the message. |
| DnsWire.QueryRoundTrip | src/dns/wire.rs:23-95 | Every normal name survives the trip through a query: the bound of 128 steps never rejects one. |
| DnsWire.QueryLayout | src/dns/wire.rs:23-36 | The query asks one question with recursion, spells the name label by label, and ends with the type and class of an IPv4 address (section 4.1 of RFC 1035). |
| DnsAliases.Scan | src/dns/wire.rs:201-233 | Succeeds exactly if the records of a name are readable and agree; gives its addresses without repetition, its one alias and the least of their lifetimes and the one given. |
| DnsAliases.NegativeLifetime | src/dns/wire.rs:252-269 | The least lifetime granted by an authority record for the name or a parent of it, or none. |
| DnsAliases.CoversIff | src/dns/wire.rs:252-262 | A zone covers a name exactly if it is the root or its labels are the last labels of the name. |
| DnsAliases.Chase | src/dns/wire.rs:192-292 | The outcome is the one that the chain of aliases from the question calls for: the addresses of its end with the least lifetime used, an alias to go on from, absence, a loop or a spent budget, or a malformed record. |
| DnsAliases.ChaseUnique | src/dns/wire.rs:192-292 | There is one chain and one outcome for every response and question. |
| DnsResolver.LookupBound | src/dns/mod.rs:291-338 | One lookup sends at most nine times the attempts for one name. |
| DnsResolver.OneCompletion | src/dns/mod.rs:250-289 | Every id issued is pending, among the results or taken by the caller, in exactly one of them and once. |
| DnsResolver.RespondKeeps | src/dns/mod.rs:391-456 | A lookup that goes on keeps its name, deadline and bounds and sends nothing; alias lifetimes only shrink and no answer outlives them; of affordable aliases exactly those that lead back end the lookup; late responses change nothing. |
| DnsResolver.RespondMeans | src/dns/mod.rs:391-456 | Addresses complete a lookup with exactly the name and addresses given, good until the least of their lifetime, the cache's limit and the aliases' expiry; absence completes it with that error and is remembered exactly if a lifetime is given; a refusal or failure of the server is tried again exactly while attempts are left; an alias becomes the question. |
| DnsResolver.ProceedKeeps | src/dns/mod.rs:291-352 | After a turn a lookup is before its deadline, sleeps, and has sent at most one more query; it times out exactly when its time or its attempts are used up. |
| DnsResolver.ProceedMeans | src/dns/mod.rs:291-352 | A turn that sends waits twice as long as the attempt before, up to the deadline; without room it tries again in ten milliseconds; if it cannot send, the lookup ends. |
| DnsResolver.FirstToExpire | src/dns/mod.rs:261-268 | The victim of a full cache is the entry that expires first. |
| DnsResolver.Remember | src/dns/mod.rs:256-279 | An outcome that is not stale is stored until it expires; a full cache loses one entry, the first to expire, and stays within its capacity. |
| DnsResolver.Resolver.Resolve | src/dns/mod.rs:461-500 | A fresh id becomes pending, or is completed from the cache exactly when it holds an outcome that has not expired; both refusals and when they occur. |
| DnsResolver.Resolver.Finish | src/dns/mod.rs:250-289 | A pending id is completed once, with its result, and cached as allowed; any other is ignored. |
| DnsResolver.Resolver.Receive | src/dns/mod.rs:354-457 | A response takes its lookup to the fate that `RespondMeans` pins down and `RespondKeeps` bounds, and touches no other. |
| DnsResolver.Resolver.Decode | src/dns/mod.rs:383-388 | A response that cannot be decoded has no answer, an error code is one, and otherwise it is what the chain of aliases calls for within the budget the lookup has left. |
| DnsResolver.Resolver.Turn | src/dns/mod.rs:557-569 | A turn takes its lookup to the fate that `ProceedMeans` pins down and `ProceedKeeps` bounds, and touches no other. |
| DnsResolver.Resolver.Poll | src/dns/mod.rs:502-574 | Stale cache entries go; then each response, in order, takes a lookup that waits for it to the fate its decoded answer calls for, each dropped query has its lookup ask again or fail, and every lookup gets its turn in order of ids; nothing else happens. Completions are only added, each of a lookup that was pending and under its name, and exactly those lookups have left; no lookup that is left has reached its deadline. Every successful completion holds the addresses at the end of the alias path in the records of one of the responses to it, and any error but a timeout or a local failure is due to a response too; failures of the pool are passed on. |
| DnsResolver.Resolver.PopResult | src/dns/mod.rs:576-578 | Results are taken in order, each once. |
| DnsResolver.Resolver.Cancel | src/dns/mod.rs:580-586 | A pending lookup is completed as cancelled; any other id changes nothing. |
| DnsResolver.Resolver.Invalidate | src/dns/mod.rs:609-618 | Exactly the pending lookups are completed, as network changed and under the old generation; nothing stays cached and the generation moves on. |

## Left out

- TcpConnection.Connection.Input: takes payloads below 65536 bytes, which is all that `TcpWire.ParsedBounds` lets through.
- TcpConnection.Connection.Transmit: does not model the flag that records a blocked device, which only feeds status reports.
- TcpNetwork.NetworkReliable: follows one incarnation of each endpoint; a server that has closed is not opened again by an old SYN.
- Responder.Respond: models packets without Ethernet framing; ARP replies and VLAN tags are not part of this model.
- UdpScheduler.PacedNext: the clock is unbounded, so saturating additions near the largest duration are not modelled.
- EthernetAdapter.Adapter.Advance: the clock is unbounded in the same way.
- EthernetAdapter.Adapter.Recv: whether a frame holds a packet for this host is an argument; frame contents are not modelled.
- ShmRing.EveryInterleaving: steps of the two processes are atomic and sequentially consistent; memory ordering is not modelled.
- XdpRings.ProducerRing.Push: accesses to shared indices are single steps; memory ordering is not modelled.
- SimFabric.Fabric.Send: whether a pool has a frame for a broadcast copy is an argument.
- DnsResolver.Resolver.Receive: the match of a response to its lookup by address, port and wire id is an argument.
- DnsAliases.Chase: starts from decoded records; the record loop of a response is not part of this model.
- The TCP pool's listener table, reset queue, connection limits and event reports.
- Statistics, telemetry, events and status reports of all components.
- Route table, ARP and Ethernet header codecs, and the address arithmetic behind them.
- The io_uring backend, whose slot table repeats the ownership argument of `XdpDevice`.
- TUN, kqueue, BPF and netlink code, socket options, memory mapping and other system calls.
- vhost-user control messages, virtqueues and the session loop.
- Doorbell pipes, timeouts and staging copies of the shared-memory ring.
- Service discovery and the receive side of the UDP pool.
- Liveness over real time.
