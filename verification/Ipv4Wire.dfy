/** The IPv4 header that `src/transport/tcp.rs` and `src/transport/udp.rs` write and check alike. */
module Ipv4Wire {
  import opened Prelude
  import opened InternetChecksum

  datatype WireError = InvalidData | InvalidInput

  const TCP: byte := 6
  const UDP: byte := 17

  function Read16(b: seq<byte>, i: nat): u16
    requires i + 2 <= |b|
  {
    Word(b[i], b[i + 1])
  }

  /** A header without options: don't fragment, time to live 64. */
  function HeaderWith(total: u16, id: u16, protocol: byte, source: Ipv4, destination: Ipv4, sum: u16): (h: seq<byte>)
    ensures |h| == 20
  {
    [0x45, 0, Hi(total), Lo(total), Hi(id), Lo(id), 0x40, 0, 64, protocol, Hi(sum), Lo(sum),
     source[0], source[1], source[2], source[3], destination[0], destination[1], destination[2], destination[3]]
  }

  function Header(total: u16, id: u16, protocol: byte, source: Ipv4, destination: Ipv4): (h: seq<byte>)
    ensures |h| == 20
  {
    HeaderWith(total, id, protocol, source, destination,
               Complement(WordSum(HeaderWith(total, id, protocol, source, destination, 0))))
  }

  /** Where the fields of the header are (section 3.1 of RFC 791). */
  lemma HeaderLayout(total: u16, id: u16, protocol: byte, source: Ipv4, destination: Ipv4)
    ensures
      var h := Header(total, id, protocol, source, destination);
      && h[0] == 0x45 && h[1] == 0 && 256 * h[2] as int + h[3] == total && 256 * h[4] as int + h[5] == id
      && h[6] == 0x40 && h[7] == 0 && h[8] == 64 && h[9] == protocol
      && h[12..16] == source && h[16..20] == destination
  {
    hide Complement, WordSum;
  }

  /** The sum of the pseudo-header over which TCP and UDP extend their checksums. */
  function PseudoSum(source: Ipv4, destination: Ipv4, protocol: byte, length: nat): nat {
    WordSum(source) + WordSum(destination) + protocol + length
  }

  /** The checksum of a TCP segment or UDP datagram with its pseudo-header. */
  method TransportChecksum(source: Ipv4, destination: Ipv4, protocol: byte, bytes: seq<byte>) returns (r: u16)
    ensures r == Complement(PseudoSum(source, destination, protocol, |bytes|) + WordSum(bytes))
  {
    hide Complement, WordSum;
    var from := SumWords(source);
    var to := SumWords(destination);
    var words := SumWords(bytes);
    r := FinishSum(from + to + protocol + |bytes| + words);
  }

  /** An unfragmented datagram of at least `minimum` bytes, with an intact header without options. */
  predicate Intact(b: seq<byte>, protocol: byte, minimum: nat) {
    && 20 <= minimum <= |b| && b[0] == 0x45 && b[9] == protocol && b[8] != 0
    && minimum <= Read16(b, 2) <= |b|
    && (Read16(b, 6) == 0 || Read16(b, 6) == 0x4000)
    && Complement(WordSum(b[..20])) == 0
  }

  function Source(b: seq<byte>): Ipv4
    requires |b| >= 20
  {
    b[12..16]
  }

  function Destination(b: seq<byte>): Ipv4
    requires |b| >= 20
  {
    b[16..20]
  }

  lemma HeaderSplit(total: u16, id: u16, protocol: byte, source: Ipv4, destination: Ipv4, sum: u16)
    ensures
      var h := HeaderWith(total, id, protocol, source, destination, sum);
      var z := HeaderWith(total, id, protocol, source, destination, 0);
      h == z[..10] + Be16(sum) + z[12..] && z == z[..10] + [0, 0] + z[12..]
  {}

  lemma HeaderVerifies(total: u16, id: u16, protocol: byte, source: Ipv4, destination: Ipv4)
    ensures Complement(WordSum(Header(total, id, protocol, source, destination))) == 0
  {
    hide WordSum, Complement, HeaderWith, Be16;
    var z := HeaderWith(total, id, protocol, source, destination, 0);
    var sum := Complement(WordSum(z));
    HeaderSplit(total, id, protocol, source, destination, sum);
    FieldVerifies(0, z[..10], sum, z[12..]);
  }

  /** A written header, whatever follows it, is intact and carries its fields. */
  lemma HeaderIntact(total: u16, id: u16, protocol: byte, source: Ipv4, destination: Ipv4, rest: seq<byte>,
                     minimum: nat)
    requires 20 <= minimum <= total <= 20 + |rest|
    ensures
      var b := Header(total, id, protocol, source, destination) + rest;
      && Intact(b, protocol, minimum) && Read16(b, 2) == total
      && Source(b) == source && Destination(b) == destination
  {
    HeaderVerifies(total, id, protocol, source, destination);
    hide WordSum, Complement;
    var h := Header(total, id, protocol, source, destination);
    var b := h + rest;
    assert b[..20] == h;
    assert b[2] == Hi(total) && b[3] == Lo(total) && b[6] == 0x40 && b[7] == 0;
    assert Source(b) == source;
    assert Destination(b) == destination;
  }

  /** A change of one header byte is always noticed. */
  lemma HeaderChangeDetected(b: seq<byte>, i: nat, v: byte, protocol: byte, minimum: nat)
    requires Intact(b, protocol, minimum) && i < 20 && v != b[i]
    ensures !Intact(b[i := v], protocol, minimum)
  {
    hide WordSum, Complement;
    assert b[i := v][..20] == b[..20][i := v];
    ByteChangeDetected(0, b[..20], i, v);
  }

  /** Stores a 16-bit field of the message in `frame[from..to]`. */
  method PutField(frame: array<byte>, from: nat, to: nat, at: nat, x: u16)
    requires from + at + 2 <= to <= frame.Length
    modifies frame
    ensures frame[from..to] == old(frame[from..to])[..at] + Be16(x) + old(frame[from..to])[at + 2..]
    ensures frame[..from] == old(frame[..from]) && frame[to..] == old(frame[to..])
    ensures forall k :: 0 <= k < frame.Length && (k < from || to <= k) ==> frame[k] == old(frame[k])
  {
    hide Hi, Lo;
    frame[from + at], frame[from + at + 1] := Hi(x), Lo(x);
    assert forall k :: 0 <= k < frame.Length && k != from + at && k != from + at + 1 ==> frame[k] == old(frame[k]);
  }

  method PutHeader(frame: array<byte>, total: u16, id: u16, protocol: byte, source: Ipv4, destination: Ipv4)
    requires 20 <= frame.Length
    modifies frame
    ensures frame[..20] == Header(total, id, protocol, source, destination)
    ensures frame[20..] == old(frame[20..])
  {
    hide WordSum, Complement, Be16;
    PutBytes(frame, 0, HeaderWith(total, id, protocol, source, destination, 0));
    assert frame[0..20] == frame[..20] == HeaderWith(total, id, protocol, source, destination, 0);
    var sum := Checksum(frame[..20]);
    HeaderSplit(total, id, protocol, source, destination, sum);
    hide HeaderWith;
    PutField(frame, 0, 20, 10, sum);
    assert frame[..20] == frame[0..20];
  }

  method PutBytes(frame: array<byte>, at: nat, bytes: seq<byte>)
    requires at + |bytes| <= frame.Length
    modifies frame
    ensures frame[at..at + |bytes|] == bytes
    ensures frame[..at] == old(frame[..at]) && frame[at + |bytes|..] == old(frame[at + |bytes|..])
    ensures forall k :: 0 <= k < frame.Length && (k < at || at + |bytes| <= k) ==> frame[k] == old(frame[k])
  {
    for k := 0 to |bytes|
      invariant frame[at..at + k] == bytes[..k]
      invariant forall j :: 0 <= j < frame.Length && (j < at || at + k <= j) ==> frame[j] == old(frame[j])
    {
      frame[at + k] := bytes[k];
    }
  }
}
