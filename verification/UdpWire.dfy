/** The wire format of UDP datagrams: `build_ipv4` and `parse_ipv4` of `src/transport/udp.rs`. */
module UdpWire {
  import opened Prelude
  import opened InternetChecksum
  import opened Ipv4Wire

  datatype Message = Message(source: Endpoint, destination: Endpoint, payload: seq<byte>)

  predicate Buildable(m: Message) { |m.payload| + 28 <= 0xffff }

  function BytesWith(m: Message, sum: u16): (b: seq<byte>)
    requires Buildable(m)
    ensures |b| == 8 + |m.payload|
  {
    [Hi(m.source.port), Lo(m.source.port), Hi(m.destination.port), Lo(m.destination.port),
     Hi(8 + |m.payload|), Lo(8 + |m.payload|), Hi(sum), Lo(sum)] + m.payload
  }

  function Pseudo(m: Message): nat {
    PseudoSum(m.source.ip, m.destination.ip, UDP, 8 + |m.payload|)
  }

  /** A computed sum of zero is sent as 0xffff, since a zero field says that there is no sum (RFC 768). */
  function StoredSum(m: Message): u16
    requires Buildable(m)
  {
    var sum := Complement(Pseudo(m) + WordSum(BytesWith(m, 0)));
    if sum == 0 then 0xffff else sum
  }

  function Datagram(m: Message, id: u16): (b: seq<byte>)
    requires Buildable(m)
    ensures |b| == 28 + |m.payload|
  {
    Header(28 + |m.payload|, id, UDP, m.source.ip, m.destination.ip) + BytesWith(m, StoredSum(m))
  }

  /** Where the fields of a datagram are (RFC 768): behind the IPv4 header of its addresses come the ports, the length,
      a checksum that is never zero, and the payload. */
  lemma DatagramLayout(m: Message, id: u16)
    requires Buildable(m)
    ensures
      var b := Datagram(m, id);
      && b[..20] == Header(|b|, id, 17, m.source.ip, m.destination.ip)
      && 256 * b[20] as int + b[21] == m.source.port && 256 * b[22] as int + b[23] == m.destination.port
      && 256 * b[24] as int + b[25] == 8 + |m.payload| && (b[26] != 0 || b[27] != 0) && b[28..] == m.payload
  {
    hide Header, Complement, WordSum, PseudoSum;
    var b, t := Datagram(m, id), BytesWith(m, StoredSum(m));
    assert forall i :: 0 <= i < |t| ==> b[20 + i] == t[i];
    assert b[28..] == t[8..];
  }

  method BuildIpv4(frame: array<byte>, m: Message, id: u16) returns (r: Result<nat, WireError>)
    modifies frame
    ensures r.Ok? <==> Buildable(m) && 28 + |m.payload| <= frame.Length
    ensures r.Ok? ==> r.value == |Datagram(m, id)| && frame[..r.value] == Datagram(m, id)
                      && frame[r.value..] == old(frame[r.value..])
    ensures r.Err? ==> r.error == InvalidInput && frame[..] == old(frame[..])
  {
    var total := |m.payload| + 28;
    if total > 0xffff || total > frame.Length { return Err(InvalidInput); }
    PutHeader(frame, total, id, UDP, m.source.ip, m.destination.ip);
    PutUdp(frame, m);
    assert frame[..total] == frame[..20] + frame[20..total];
    r := Ok(total);
  }

  method PutUdp(frame: array<byte>, m: Message)
    requires Buildable(m) && 28 + |m.payload| <= frame.Length
    modifies frame
    ensures frame[..20] == old(frame[..20])
    ensures frame[20..28 + |m.payload|] == BytesWith(m, StoredSum(m))
    ensures frame[28 + |m.payload|..] == old(frame[28 + |m.payload|..])
  {
    hide WordSum, Complement, PseudoSum, Be16, BytesWith;
    var total := 28 + |m.payload|;
    PutBytes(frame, 20, BytesWith(m, 0));
    var sum := TransportChecksum(m.source.ip, m.destination.ip, UDP, frame[20..total]);
    if sum == 0 { sum := 0xffff; }
    SplitAtSum(m, sum);
    PutField(frame, 20, total, 6, sum);
  }

  lemma SplitAtSum(m: Message, sum: u16)
    requires Buildable(m)
    ensures
      var z := BytesWith(m, 0);
      && BytesWith(m, sum) == z[..6] + Be16(sum) + z[8..]
      && z == z[..6] + [0, 0] + z[8..]
  {}

  // ---------------------------------------------------------------- parsing

  /** The UDP part of an intact datagram. */
  function Body(b: seq<byte>): seq<byte>
    requires Intact(b, UDP, 28)
  {
    b[20..Read16(b, 2)]
  }

  predicate BodyOk(source: Ipv4, destination: Ipv4, udp: seq<byte>) {
    && |udp| >= 8 && Read16(udp, 4) == |udp|
    && (Read16(udp, 6) == 0 || Complement(PseudoSum(source, destination, UDP, |udp|) + WordSum(udp)) == 0)
  }

  function Fields(source: Ipv4, destination: Ipv4, udp: seq<byte>): Message
    requires |udp| >= 8
  {
    Message(Endpoint(source, Read16(udp, 0)), Endpoint(destination, Read16(udp, 2)), udp[8..])
  }

  function Parse(b: seq<byte>): Result<Message, WireError> {
    if !Intact(b, UDP, 28) || !BodyOk(Source(b), Destination(b), Body(b)) then Err(InvalidData)
    else Ok(Fields(Source(b), Destination(b), Body(b)))
  }

  method ParseIpv4(b: seq<byte>) returns (r: Result<Message, WireError>)
    ensures r == Parse(b)
  {
    hide WordSum, Complement;
    if |b| < 28 || b[0] != 0x45 || b[9] != 17 || b[8] == 0 { return Err(InvalidData); }
    var total := Read16(b, 2);
    if total < 28 || total > |b| || (Read16(b, 6) != 0 && Read16(b, 6) != 0x4000) { return Err(InvalidData); }
    var header := Checksum(b[..20]);
    if header != 0 { return Err(InvalidData); }
    var udp := b[20..total];
    if Read16(udp, 4) != |udp| { return Err(InvalidData); }
    if Read16(udp, 6) != 0 {
      var sum := TransportChecksum(b[12..16], b[16..20], UDP, udp);
      if sum != 0 { return Err(InvalidData); }
    }
    r := Ok(Fields(b[12..16], b[16..20], udp));
  }

  // ---------------------------------------------------------------- the two undo each other

  lemma SumVerifies(m: Message)
    requires Buildable(m)
    ensures Complement(Pseudo(m) + WordSum(BytesWith(m, StoredSum(m)))) == 0
  {
    hide WordSum, Complement, BytesWith, Be16, Pseudo;
    var z := BytesWith(m, 0);
    SplitAtSum(m, StoredSum(m));
    FieldVerifies(Pseudo(m), z[..6], StoredSum(m), z[8..]);
  }

  lemma FieldsReadBack(m: Message, sum: u16)
    requires Buildable(m)
    ensures
      var udp := BytesWith(m, sum);
      Read16(udp, 4) == |udp| && Fields(m.source.ip, m.destination.ip, udp) == m
  {
    var udp := BytesWith(m, sum);
    assert udp[8..] == m.payload;
  }

  /** Parsing recovers every message that can be built, whatever padding follows the datagram. */
  lemma RoundTrip(m: Message, id: u16, padding: seq<byte>)
    requires Buildable(m)
    ensures Parse(Datagram(m, id) + padding) == Ok(m)
  {
    hide WordSum, Complement, Intact, Header, BytesWith, StoredSum, Source, Destination, PseudoSum, Fields;
    var b := Datagram(m, id) + padding;
    var udp := BytesWith(m, StoredSum(m));
    var total := 28 + |m.payload|;
    assert b == Header(total, id, UDP, m.source.ip, m.destination.ip) + (udp + padding);
    HeaderIntact(total, id, UDP, m.source.ip, m.destination.ip, udp + padding, 28);
    assert Body(b) == udp;
    SumVerifies(m);
    FieldsReadBack(m, StoredSum(m));
  }

  /** A change of one byte either makes the datagram unreadable or, where it zeroes the checksum
      field and so turns the check off, leaves the message as it was. */
  lemma ByteChange(b: seq<byte>, i: nat, v: byte)
    requires Parse(b).Ok? && i < Read16(b, 2) && v != b[i] && Read16(b, 26) != 0
    ensures
      var c := b[i := v];
      Parse(c) == if 26 <= i < 28 && Read16(c, 26) == 0 then Parse(b) else Err(InvalidData)
  {
    hide WordSum, Complement, Intact, Source, Destination, PseudoSum, BodyOk, Fields, Body;
    IntactSize(b);
    if i < 20 {
      HeaderChangeDetected(b, i, v, UDP, 28);
    } else {
      BodyChanged(b, i, v);
      BodyChange(Source(b), Destination(b), Body(b), i - 20, v);
    }
  }

  lemma IntactSize(b: seq<byte>)
    requires Intact(b, UDP, 28)
    ensures 28 <= Read16(b, 2) <= |b| && |Body(b)| == Read16(b, 2) - 20 && Read16(Body(b), 6) == Read16(b, 26)
  {
    hide WordSum, Complement;
  }

  /** A change behind the header leaves the header as it was. */
  lemma BodyChanged(b: seq<byte>, i: nat, v: byte)
    requires Intact(b, UDP, 28) && 20 <= i < Read16(b, 2) <= |b|
    ensures
      var c := b[i := v];
      && Intact(c, UDP, 28) && Source(c) == Source(b) && Destination(c) == Destination(b)
      && |Body(b)| > i - 20 && Body(b)[i - 20] == b[i] && Body(c) == Body(b)[i - 20 := v]
      && Read16(Body(c), 6) == Read16(c, 26)
  {
    hide WordSum, Complement;
    var c := b[i := v];
    assert c[..20] == b[..20];
    assert Read16(c, 2) == Read16(b, 2);
    assert Body(c) == Body(b)[i - 20 := v];
  }

  lemma BodyChange(source: Ipv4, destination: Ipv4, udp: seq<byte>, i: nat, v: byte)
    requires BodyOk(source, destination, udp) && i < |udp| && v != udp[i] && Read16(udp, 6) != 0
    ensures
      var c := udp[i := v];
      if 6 <= i < 8 && Read16(c, 6) == 0 then
        BodyOk(source, destination, c) && Fields(source, destination, c) == Fields(source, destination, udp)
      else !BodyOk(source, destination, c)
  {
    hide WordSum, Complement, PseudoSum;
    ByteChangeDetected(PseudoSum(source, destination, UDP, |udp|), udp, i, v);
    if 6 <= i < 8 {
      assert udp[i := v][8..] == udp[8..];
    }
  }
}
