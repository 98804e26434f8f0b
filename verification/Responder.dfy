/** The stateless in-place responder of `src/net/mod.rs`, on packets without link-layer framing. */
module Responder {
  import opened Prelude
  import opened InternetChecksum
  import opened Ipv4Wire
  import UdpWire

  datatype Reply = Icmp | Udp | Ignored | Malformed

  const ICMP: byte := 1

  // ---------------------------------------------------------------- what the replies are

  /** An intact header sent back: a fresh time to live, the addresses turned round. */
  function TurnedWith(h: seq<byte>, me: Ipv4, sum: u16): (r: seq<byte>)
    requires |h| == 20
    ensures |r| == 20
  {
    [h[0], h[1], h[2], h[3], h[4], h[5], h[6], h[7], 64, h[9], Hi(sum), Lo(sum),
     me[0], me[1], me[2], me[3], h[12], h[13], h[14], h[15]]
  }

  function Turned(h: seq<byte>, me: Ipv4): (r: seq<byte>)
    requires |h| == 20
    ensures |r| == 20
  {
    TurnedWith(h, me, Complement(WordSum(TurnedWith(h, me, 0))))
  }

  function SwapPorts(udp: seq<byte>): (r: seq<byte>)
    requires |udp| >= 8
    ensures |r| == |udp|
  {
    [udp[2], udp[3], udp[0], udp[1]] + udp[4..]
  }

  /** An echo request that reached us undamaged. */
  predicate EchoRequest(b: seq<byte>) {
    && Intact(b, ICMP, 28)
    && var body := b[20..Read16(b, 2)];
       Complement(WordSum(body)) == 0 && body[0] == 8 && body[1] == 0
  }

  function EchoReplyWith(body: seq<byte>, sum: u16): (r: seq<byte>)
    requires |body| >= 8
    ensures |r| == |body|
  {
    [0, body[1], Hi(sum), Lo(sum)] + body[4..]
  }

  function EchoReply(body: seq<byte>): (r: seq<byte>)
    requires |body| >= 8
    ensures |r| == |body|
  {
    EchoReplyWith(body, Complement(WordSum(EchoReplyWith(body, 0))))
  }

  /** A UDP message for this address and port. */
  predicate ForUs(b: seq<byte>, me: Ipv4, port: Option<u16>) {
    var m := UdpWire.Parse(b);
    m.Ok? && m.value.destination.ip == me && port == Some(m.value.destination.port)
  }

  /** A header that cannot be trusted: too short, of another version, or damaged. */
  predicate BadHeader(b: seq<byte>) {
    || |b| < 20 || b[0] / 16 != 4 || b[0] % 16 < 5
    || Read16(b, 2) < b[0] % 16 * 4 || Read16(b, 2) > |b|
    || Complement(WordSum(b[..b[0] % 16 * 4])) != 0
  }

  /** A whole packet for this host, without options. */
  predicate Whole(b: seq<byte>, me: Ipv4) {
    && !BadHeader(b) && (Read16(b, 6) == 0 || Read16(b, 6) == 0x4000)
    && b[16..20] == me && b[8] != 0 && b[0] % 16 == 5
  }

  /** A message that is damaged, as far as it concerns this host. */
  predicate BadBody(b: seq<byte>, me: Ipv4, port: Option<u16>)
    requires Whole(b, me)
  {
    var body := b[20..Read16(b, 2)];
    if b[9] == ICMP then |body| < 8 || Complement(WordSum(body)) != 0
    else
      && b[9] == UDP
      && (|body| < 8 || Read16(body, 4) != |body|
          || (Some(Read16(body, 2)) == port && Read16(body, 6) != 0
              && Complement(PseudoSum(b[12..16], me, UDP, |body|) + WordSum(body)) != 0))
  }

  predicate Damaged(b: seq<byte>, me: Ipv4, port: Option<u16>) {
    BadHeader(b) || (Whole(b, me) && BadBody(b, me, port))
  }

  /** A datagram that was built for this address and port concerns it, and one for another does not. */
  lemma BuiltForUs(m: UdpWire.Message, id: u16, padding: seq<byte>, me: Ipv4, port: Option<u16>)
    requires UdpWire.Buildable(m)
    ensures ForUs(UdpWire.Datagram(m, id) + padding, me, port) <==>
              m.destination.ip == me && port == Some(m.destination.port)
  {
    hide UdpWire.Parse, UdpWire.Datagram;
    UdpWire.RoundTrip(m, id, padding);
  }

  // ---------------------------------------------------------------- the method

  method Readdress(ip: array<byte>, me: Ipv4)
    requires 20 <= ip.Length
    modifies ip
    ensures ip[..20] == Turned(old(ip[..20]), me)
    ensures forall k :: 20 <= k < ip.Length ==> ip[k] == old(ip[k])
  {
    hide WordSum, Complement, Be16;
    ghost var h := ip[..20];
    PutBytes(ip, 0, TurnedWith(ip[..20], me, 0));
    assert ip[0..20] == ip[..20] == TurnedWith(h, me, 0);
    var sum := Checksum(ip[..20]);
    TurnedSplit(h, me, sum);
    hide TurnedWith;
    PutField(ip, 0, 20, 10, sum);
    assert ip[..20] == ip[0..20];
  }

  lemma TurnedSplit(h: seq<byte>, me: Ipv4, sum: u16)
    requires |h| == 20
    ensures
      var z := TurnedWith(h, me, 0);
      && TurnedWith(h, me, sum) == z[..10] + Be16(sum) + z[12..]
      && z == z[..10] + [0, 0] + z[12..]
  {}

  /** The checks that decide what to do with a packet. */
  method Classify(b: seq<byte>, me: Ipv4, port: Option<u16>) returns (reply: Reply)
    ensures reply.Udp? <==> ForUs(b, me, port)
    ensures reply.Icmp? <==> EchoRequest(b) && Destination(b) == me
    ensures reply.Malformed? <==> Damaged(b, me, port)
    ensures reply.Ignored? <==>
              !ForUs(b, me, port) && !(EchoRequest(b) && Destination(b) == me) && !Damaged(b, me, port)
  {
    hide WordSum, Complement, PseudoSum;
    if |b| < 20 || b[0] / 16 != 4 { return Malformed; }
    var ihl := b[0] % 16 * 4;
    var total := Read16(b, 2);
    if ihl < 20 || total < ihl || total > |b| { return Malformed; }
    var header := Checksum(b[..ihl]);
    if header != 0 { return Malformed; }
    if Read16(b, 6) != 0 && Read16(b, 6) != 0x4000 { return Ignored; }
    if b[16..20] != me || b[8] == 0 { return Ignored; }
    if ihl != 20 { return Ignored; }
    var body := b[20..total];
    if b[9] == ICMP {
      if |body| < 8 { return Malformed; }
      var sum := Checksum(body);
      if sum != 0 { return Malformed; }
      if body[0] != 8 || body[1] != 0 { return Ignored; }
      return Icmp;
    } else if b[9] == UDP {
      if |body| < 8 || Read16(body, 4) != |body| { return Malformed; }
      if Some(Read16(body, 2)) != port { return Ignored; }
      if Read16(body, 6) != 0 {
        var sum := TransportChecksum(b[12..16], me, UDP, body);
        if sum != 0 { return Malformed; }
      }
      return Udp;
    } else {
      return Ignored;
    }
  }

  method Respond(ip: array<byte>, me: Ipv4, port: Option<u16>) returns (reply: Reply, length: nat)
    modifies ip
    ensures reply.Udp? <==> ForUs(old(ip[..]), me, port)
    ensures reply.Icmp? <==> EchoRequest(old(ip[..])) && Destination(old(ip[..])) == me
    ensures reply.Malformed? <==> Damaged(old(ip[..]), me, port)
    ensures reply.Udp? || reply.Icmp? ==> 28 <= length == Read16(old(ip[..]), 2) <= ip.Length
    ensures reply.Udp? ==> ip[..length] == Turned(old(ip[..20]), me) + SwapPorts(old(ip[20..length]))
    ensures reply.Icmp? ==> ip[..length] == Turned(old(ip[..20]), me) + EchoReply(old(ip[20..length]))
    ensures !reply.Udp? && !reply.Icmp? ==> ip[..] == old(ip[..])
  {
    hide Turned, SwapPorts, EchoReply, WordSum, Complement, Damaged;
    reply := Classify(ip[..], me, port);
    length := 0;
    if reply.Udp? || reply.Icmp? {
      length := Word(ip[2], ip[3]);
      assert 28 <= length <= ip.Length;
      hide ForUs, EchoRequest;
      if reply.Udp? { Exchange(ip, length); } else { AnswerEcho(ip, length); }
      label Rest:
      Readdress(ip, me);
      assert ip[20..length] == old@Rest(ip[20..length]);
      assert ip[..length] == ip[..20] + ip[20..length];
    }
  }

  method Exchange(ip: array<byte>, total: nat)
    requires 28 <= total <= ip.Length
    modifies ip
    ensures ip[..20] == old(ip[..20])
    ensures ip[20..total] == SwapPorts(old(ip[20..total]))
  {
    ip[20], ip[22] := ip[22], ip[20];
    ip[21], ip[23] := ip[23], ip[21];
    assert ip[24..total] == old(ip[20..total])[4..];
    assert ip[20..total] == ip[20..24] + ip[24..total];
  }

  method AnswerEcho(ip: array<byte>, total: nat)
    requires 28 <= total <= ip.Length
    modifies ip
    ensures ip[..20] == old(ip[..20])
    ensures ip[20..total] == EchoReply(old(ip[20..total]))
  {
    hide WordSum, Complement, Be16;
    ghost var body := ip[20..total];
    PutBytes(ip, 20, [0, ip[21], 0, 0]);
    assert ip[20..total] == ip[20..24] + ip[24..total];
    assert ip[20..total] == EchoReplyWith(body, 0);
    var sum := Checksum(ip[20..total]);
    EchoSplit(body, sum);
    PutField(ip, 20, total, 2, sum);
  }

  lemma EchoSplit(body: seq<byte>, sum: u16)
    requires |body| >= 8
    ensures
      var z := EchoReplyWith(body, 0);
      && EchoReplyWith(body, sum) == z[..2] + Be16(sum) + z[4..]
      && z == z[..2] + [0, 0] + z[4..]
  {}

  // ---------------------------------------------------------------- what the replies promise

  lemma TurnedIntact(b: seq<byte>, me: Ipv4, body: seq<byte>, protocol: byte, minimum: nat)
    requires Intact(b, protocol, minimum) && |body| == Read16(b, 2) - 20
    ensures
      var r := Turned(b[..20], me) + body;
      && Intact(r, protocol, minimum) && Read16(r, 2) == |r|
      && Source(r) == me && Destination(r) == Source(b)
  {
    hide WordSum, Complement, Be16, Turned;
    TurnedBytes(b[..20], me);
    TurnedVerifies(b[..20], me);
    var t := Turned(b[..20], me);
    var r := t + body;
    assert r[..20] == t && r[12..16] == t[12..16] && r[16..20] == t[16..20];
    assert forall k :: 0 <= k < 20 ==> r[k] == t[k];
  }

  lemma TurnedVerifies(h: seq<byte>, me: Ipv4)
    requires |h| == 20
    ensures Complement(WordSum(Turned(h, me))) == 0
  {
    hide WordSum, Complement, Be16, TurnedWith;
    var z := TurnedWith(h, me, 0);
    var sum := Complement(WordSum(z));
    TurnedSplit(h, me, sum);
    FieldVerifies(0, z[..10], sum, z[12..]);
  }

  lemma TurnedBytes(h: seq<byte>, me: Ipv4)
    requires |h| == 20
    ensures
      var t := Turned(h, me);
      t[..8] == h[..8] && t[8] == 64 && t[9] == h[9] && t[12..16] == me && t[16..20] == h[12..16]
  {
    hide WordSum, Complement;
  }

  /** Exchanging the ports keeps the sum of the words. */
  lemma SwapKeepsSum(udp: seq<byte>)
    requires |udp| >= 8
    ensures WordSum(SwapPorts(udp)) == WordSum(udp)
  {
    hide Word;
    var swapped := SwapPorts(udp);
    assert udp[2..][2..] == udp[4..] == swapped[2..][2..];
  }

  /** A UDP reply is the message it answers with the endpoints exchanged. */
  lemma UdpReplyParses(b: seq<byte>, me: Ipv4, port: Option<u16>)
    requires ForUs(b, me, port)
    ensures
      var m := UdpWire.Parse(b).value;
      UdpWire.Parse(Turned(b[..20], me) + SwapPorts(UdpWire.Body(b)))
        == Ok(UdpWire.Message(m.destination, m.source, m.payload))
  {
    hide WordSum, Complement, Turned;
    var udp := UdpWire.Body(b);
    var swapped := SwapPorts(udp);
    TurnedIntact(b, me, swapped, UDP, 28);
    SwapKeepsSum(udp);
    var r := Turned(b[..20], me) + swapped;
    assert UdpWire.Body(r) == swapped;
    assert swapped[8..] == udp[8..];
    assert Read16(swapped, 4) == Read16(udp, 4) && Read16(swapped, 6) == Read16(udp, 6);
  }

  /** An echo reply verifies, answers its request and carries the same data. */
  lemma EchoReplyVerifies(b: seq<byte>, me: Ipv4)
    requires EchoRequest(b)
    ensures
      var body := b[20..Read16(b, 2)];
      var r := Turned(b[..20], me) + EchoReply(body);
      && Intact(r, ICMP, 28) && Source(r) == me && Destination(r) == Source(b)
      && Complement(WordSum(EchoReply(body))) == 0
      && EchoReply(body)[..2] == [0, 0] && EchoReply(body)[4..] == body[4..]
  {
    hide WordSum, Complement, Turned, Be16;
    var body := b[20..Read16(b, 2)];
    TurnedIntact(b, me, EchoReply(body), ICMP, 28);
    var z := EchoReplyWith(body, 0);
    var sum := Complement(WordSum(z));
    EchoSplit(body, sum);
    FieldVerifies(0, z[..2], sum, z[4..]);
  }
}
