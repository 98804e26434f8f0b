/** The wire format of TCP segments: `build_ipv4` and `parse_ipv4` of `src/transport/tcp.rs`. */
module TcpWire {
  import opened Prelude
  import opened InternetChecksum
  import opened Ipv4Wire
  import opened TcpSegment

  function Quad(a: byte, b: byte, c: byte, d: byte): u32 { Word(a, b) as int * 0x1_0000 + Word(c, d) }

  function High(x: u32): u16 { x / 0x1_0000 }

  function Low(x: u32): u16 { x % 0x1_0000 }

  lemma Read32Written(x: u32)
    ensures Quad(Hi(High(x)), Lo(High(x)), Hi(Low(x)), Lo(Low(x))) == x
  {}

  // ---------------------------------------------------------------- building

  predicate Buildable(s: Segment) {
    && s.mss != Some(0) && (s.mss.Some? ==> HasSyn(s.flags))
    && 20 + HeaderLength(s) + |s.payload| <= 0xffff
  }

  function HeaderLength(s: Segment): nat { if s.mss.Some? then 24 else 20 }

  function FixedPart(s: Segment, sum: u16): (h: seq<byte>)
    ensures |h| == 20
  {
    [Hi(s.source.port), Lo(s.source.port), Hi(s.destination.port), Lo(s.destination.port),
     Hi(High(s.sequence)), Lo(High(s.sequence)), Hi(Low(s.sequence)), Lo(Low(s.sequence)),
     Hi(High(s.acknowledgment)), Lo(High(s.acknowledgment)), Hi(Low(s.acknowledgment)), Lo(Low(s.acknowledgment)),
     HeaderLength(s) / 4 * 16, s.flags, Hi(s.window), Lo(s.window), Hi(sum), Lo(sum), 0, 0]
  }

  function Options(s: Segment): (b: seq<byte>)
    ensures 20 + |b| == HeaderLength(s)
  {
    if s.mss.Some? then [2, 4] + Be16(s.mss.value) else []
  }

  function BytesWith(s: Segment, sum: u16): (b: seq<byte>)
    ensures |b| == HeaderLength(s) + |s.payload|
  {
    FixedPart(s, sum) + (Options(s) + s.payload)
  }

  function Pseudo(s: Segment): nat {
    PseudoSum(s.source.ip, s.destination.ip, TCP, HeaderLength(s) + |s.payload|)
  }

  /** Header, options and payload with the checksum over the pseudo-header and all of them. */
  function Bytes(s: Segment): (b: seq<byte>)
    ensures |b| == HeaderLength(s) + |s.payload|
  {
    BytesWith(s, Complement(Pseudo(s) + WordSum(BytesWith(s, 0))))
  }

  function Datagram(s: Segment): (b: seq<byte>)
    requires Buildable(s)
    ensures |b| == 20 + HeaderLength(s) + |s.payload|
  {
    Header(20 + HeaderLength(s) + |s.payload|, 0, TCP, s.source.ip, s.destination.ip) + Bytes(s)
  }

  /** Where the fields of a segment are (section 3.1 of RFC 9293): behind the IPv4 header of its addresses come the
      ports, the numbers, the header length in words, the flags and the window; a SYN's segment size follows as
      option 2, and then the payload. */
  lemma SegmentLayout(s: Segment)
    requires Buildable(s)
    ensures
      var b := Datagram(s);
      && b[..20] == Header(|b|, 0, 6, s.source.ip, s.destination.ip)
      && 256 * b[20] as int + b[21] == s.source.port && 256 * b[22] as int + b[23] == s.destination.port
      && ((b[24] as int * 256 + b[25]) * 256 + b[26]) * 256 + b[27] == s.sequence
      && ((b[28] as int * 256 + b[29]) * 256 + b[30]) * 256 + b[31] == s.acknowledgment
      && b[32] == (if s.mss.Some? then 0x60 else 0x50) && b[33] == s.flags && 256 * b[34] as int + b[35] == s.window
      && b[38] == b[39] == 0
      && (s.mss.Some? ==> b[40] == 2 && b[41] == 4 && 256 * b[42] as int + b[43] == s.mss.value)
      && b[if s.mss.Some? then 44 else 40..] == s.payload
  {
    hide Header, Complement, WordSum, PseudoSum, FixedPart, Options, Hi, Lo, High, Low;
    var b := Datagram(s);
    var sum := Complement(Pseudo(s) + WordSum(BytesWith(s, 0)));
    var h, o := FixedPart(s, sum), Options(s);
    FixedLayout(s, sum);
    OptionLayout(s);
    Pieces(Header(|b|, 0, 6, s.source.ip, s.destination.ip), h, o, s.payload);
  }

  lemma Pieces(a: seq<byte>, h: seq<byte>, o: seq<byte>, p: seq<byte>)
    requires |a| == |h| == 20
    ensures
      var b := a + (h + (o + p));
      && b[..20] == a && (forall i :: 20 <= i < 40 ==> b[i] == h[i - 20])
      && (forall i :: 40 <= i < 40 + |o| ==> b[i] == o[i - 40]) && b[40 + |o|..] == p
  {}

  lemma FixedLayout(s: Segment, sum: u16)
    ensures
      var h := FixedPart(s, sum);
      && 256 * h[0] as int + h[1] == s.source.port && 256 * h[2] as int + h[3] == s.destination.port
      && ((h[4] as int * 256 + h[5]) * 256 + h[6]) * 256 + h[7] == s.sequence
      && ((h[8] as int * 256 + h[9]) * 256 + h[10]) * 256 + h[11] == s.acknowledgment
      && h[12] == (if s.mss.Some? then 0x60 else 0x50) && h[13] == s.flags && 256 * h[14] as int + h[15] == s.window
      && h[18] == h[19] == 0
  {
    NumberBytes(s.sequence);
    NumberBytes(s.acknowledgment);
    hide High, Low;
  }

  lemma OptionLayout(s: Segment)
    ensures
      var o := Options(s);
      if s.mss.None? then o == [] else |o| == 4 && o[0] == 2 && o[1] == 4 && 256 * o[2] as int + o[3] == s.mss.value
  {}

  lemma NumberBytes(x: u32)
    ensures ((Hi(High(x)) as int * 256 + Lo(High(x))) * 256 + Hi(Low(x))) * 256 + Lo(Low(x)) == x
  {}

  /** Builds in place; `frame.Length` is the room behind the frame's headroom. */
  method BuildIpv4(frame: array<byte>, s: Segment) returns (r: Result<nat, WireError>)
    modifies frame
    ensures r.Ok? <==> Buildable(s) && 20 + HeaderLength(s) + |s.payload| <= frame.Length
    ensures r.Ok? ==> r.value == |Datagram(s)| && frame[..r.value] == Datagram(s)
                      && frame[r.value..] == old(frame[r.value..])
    ensures r.Err? ==> r.error == InvalidInput && frame[..] == old(frame[..])
  {
    hide Bytes, Header, WordSum, Complement;
    if s.mss == Some(0) || (s.mss.Some? && !HasSyn(s.flags)) { return Err(InvalidInput); }
    var header := if s.mss.Some? then 24 else 20;
    var total := |s.payload| + 20 + header;
    if total > 0xffff || total > frame.Length { return Err(InvalidInput); }
    PutHeader(frame, total, 0, TCP, s.source.ip, s.destination.ip);
    PutTcp(frame, total, s);
    assert frame[..total] == frame[..20] + frame[20..total];
    r := Ok(total);
  }

  method PutTcp(frame: array<byte>, total: nat, s: Segment)
    requires total == 20 + HeaderLength(s) + |s.payload| <= frame.Length
    modifies frame
    ensures frame[..20] == old(frame[..20])
    ensures frame[20..total] == Bytes(s)
    ensures frame[total..] == old(frame[total..])
  {
    hide WordSum, Complement, Be16, BytesWith, PseudoSum;
    PutUnsummed(frame, total, s);
    var sum := TransportChecksum(s.source.ip, s.destination.ip, TCP, frame[20..total]);
    SplitAtSum(s, sum);
    PutField(frame, 20, total, 16, sum);
  }

  method PutUnsummed(frame: array<byte>, total: nat, s: Segment)
    requires total == 20 + HeaderLength(s) + |s.payload| <= frame.Length
    modifies frame
    ensures frame[..20] == old(frame[..20])
    ensures frame[20..total] == BytesWith(s, 0)
    ensures frame[total..] == old(frame[total..])
  {
    hide FixedPart, Options;
    var start := 20 + HeaderLength(s);
    PutBytes(frame, 20, FixedPart(s, 0) + Options(s));
    assert frame[total..] == frame[start..][total - start..];
    assert frame[..20] == frame[..start][..20];
    label Header:
    PutBytes(frame, start, s.payload);
    assert frame[..20] == frame[..start][..20] == old@Header(frame[..20]);
    assert frame[20..start] == frame[..start][20..] == old@Header(frame[20..start]);
    assert frame[20..total] == frame[20..start] + frame[start..total];
  }

  /** The checksum occupies bytes 16 and 17, an aligned word. */
  lemma SplitAtSum(s: Segment, sum: u16)
    ensures
      var z := BytesWith(s, 0);
      && BytesWith(s, sum) == z[..16] + Be16(sum) + z[18..]
      && z == z[..16] + [0, 0] + z[18..]
  {
    hide Options;
    var z := BytesWith(s, 0);
    var rest := Options(s) + s.payload;
    assert FixedPart(s, sum) == FixedPart(s, 0)[..16] + Be16(sum) + [0, 0];
    assert z[18..] == [0, 0] + rest;
  }

  // ---------------------------------------------------------------- parsing

  /** The options in `tcp[at..end]`: an MSS may occur once, unknown ones are skipped. */
  function ReadOptions(tcp: seq<byte>, at: nat, end: nat, mss: Option<u16>): Result<Option<u16>, WireError>
    requires end <= |tcp|
    decreases end - at
  {
    if at >= end || tcp[at] == 0 then Ok(mss)
    else if tcp[at] == 1 then ReadOptions(tcp, at + 1, end, mss)
    else if at + 2 > end || tcp[at + 1] < 2 || at + tcp[at + 1] > end then Err(InvalidData)
    else if tcp[at] != 2 then ReadOptions(tcp, at + tcp[at + 1], end, mss)
    else if tcp[at + 1] != 4 || mss.Some? || Read16(tcp, at + 2) == 0 then Err(InvalidData)
    else ReadOptions(tcp, at + 4, end, Some(Read16(tcp, at + 2)))
  }

  function Sum(b: seq<byte>, tcp: seq<byte>): u16
    requires |b| >= 20
  {
    Complement(PseudoSum(Source(b), Destination(b), TCP, |tcp|) + WordSum(tcp))
  }

  function Offset(tcp: seq<byte>): nat
    requires |tcp| >= 20
  {
    tcp[12] / 16 * 4
  }

  function Fields(b: seq<byte>, tcp: seq<byte>, mss: Option<u16>): Segment
    requires |b| >= 20 && |tcp| >= 20 && 20 <= Offset(tcp) <= |tcp|
  {
    Segment(Endpoint(Source(b), Read16(tcp, 0)), Endpoint(Destination(b), Read16(tcp, 2)),
            Quad(tcp[4], tcp[5], tcp[6], tcp[7]), Quad(tcp[8], tcp[9], tcp[10], tcp[11]),
            tcp[13], Read16(tcp, 14), mss, tcp[Offset(tcp)..])
  }

  function Parse(b: seq<byte>): Result<Segment, WireError> {
    if !Intact(b, TCP, 40) then Err(InvalidData)
    else
      var tcp := b[20..Read16(b, 2)];
      if Offset(tcp) < 20 || Offset(tcp) > |tcp| || Sum(b, tcp) != 0 then Err(InvalidData)
      else
        var mss := ReadOptions(tcp, 20, Offset(tcp), None);
        if mss.Err? then Err(mss.error) else Ok(Fields(b, tcp, mss.value))
  }

  method ParseOptions(tcp: seq<byte>, end: nat) returns (r: Result<Option<u16>, WireError>)
    requires 20 <= end <= |tcp|
    ensures r == ReadOptions(tcp, 20, end, None)
  {
    var mss: Option<u16> := None;
    var at := 20;
    while at < end
      invariant ReadOptions(tcp, at, end, mss) == ReadOptions(tcp, 20, end, None)
      decreases end - at
    {
      var kind := tcp[at];
      if kind == 0 { break; }
      if kind == 1 {
        at := at + 1;
        continue;
      }
      if at + 2 > end { return Err(InvalidData); }
      var length := tcp[at + 1];
      if length < 2 || at + length > end { return Err(InvalidData); }
      if kind == 2 {
        if length != 4 || mss.Some? { return Err(InvalidData); }
        var value := Read16(tcp, at + 2);
        if value == 0 { return Err(InvalidData); }
        mss := Some(value);
      }
      at := at + length;
    }
    r := Ok(mss);
  }

  method ParseIpv4(b: seq<byte>) returns (r: Result<Segment, WireError>)
    ensures r == Parse(b)
  {
    hide WordSum, Complement, ReadOptions;
    if |b| < 40 || b[0] != 0x45 || b[9] != 6 || b[8] == 0 { return Err(InvalidData); }
    var total := Read16(b, 2);
    if total < 40 || total > |b| { return Err(InvalidData); }
    var header := Checksum(b[..20]);
    if header != 0 || (Read16(b, 6) != 0 && Read16(b, 6) != 0x4000) { return Err(InvalidData); }
    var tcp := b[20..total];
    if Offset(tcp) < 20 || Offset(tcp) > |tcp| { return Err(InvalidData); }
    var sum := TransportChecksum(b[12..16], b[16..20], TCP, tcp);
    if sum != 0 { return Err(InvalidData); }
    var mss := ParseOptions(tcp, Offset(tcp));
    if mss.Err? { return Err(mss.error); }
    r := Ok(Fields(b, tcp, mss.value));
  }

  // ---------------------------------------------------------------- the two undo each other

  lemma SumVerifies(s: Segment)
    ensures Complement(Pseudo(s) + WordSum(Bytes(s))) == 0
  {
    hide WordSum, Complement, BytesWith, Be16, Pseudo;
    var z := BytesWith(s, 0);
    var sum := Complement(Pseudo(s) + WordSum(z));
    SplitAtSum(s, sum);
    FieldVerifies(Pseudo(s), z[..16], sum, z[18..]);
  }

  lemma OptionsReadBack(s: Segment, tcp: seq<byte>)
    requires Buildable(s) && |tcp| >= HeaderLength(s) && tcp[20..HeaderLength(s)] == Options(s)
    ensures ReadOptions(tcp, 20, HeaderLength(s), None) == Ok(s.mss)
  {
    if s.mss.Some? {
      var o := tcp[20..24];
      assert tcp[20] == o[0] == 2 && tcp[21] == o[1] == 4 && tcp[22] == o[2] && tcp[23] == o[3];
      assert Read16(tcp, 22) == s.mss.value;
      assert ReadOptions(tcp, 24, 24, s.mss) == Ok(s.mss);
    }
  }

  lemma FieldsReadBack(s: Segment, b: seq<byte>, tcp: seq<byte>, sum: u16)
    requires |b| >= 20 && Source(b) == s.source.ip && Destination(b) == s.destination.ip
    requires tcp == BytesWith(s, sum)
    ensures Offset(tcp) == HeaderLength(s) && tcp[20..HeaderLength(s)] == Options(s)
    ensures Fields(b, tcp, s.mss) == s
  {
    Read32Written(s.sequence);
    Read32Written(s.acknowledgment);
    hide Options, Source, Destination, High, Low, Quad;
    assert tcp[20..HeaderLength(s)] == Options(s);
    assert tcp[HeaderLength(s)..] == s.payload;
  }

  /** Parsing recovers every segment that can be built, whatever padding follows the datagram. */
  lemma RoundTrip(s: Segment, padding: seq<byte>)
    requires Buildable(s)
    ensures Parse(Datagram(s) + padding) == Ok(s)
  {
    hide WordSum, Complement, Intact, Header, FixedPart, Options, ReadOptions, Fields, Offset, Bytes, PseudoSum, Source,
         Destination;
    var b := Datagram(s) + padding;
    var total := |Datagram(s)|;
    var tcp := Bytes(s);
    var h := Header(total, 0, TCP, s.source.ip, s.destination.ip);
    assert b == h + (tcp + padding);
    HeaderIntact(total, 0, TCP, s.source.ip, s.destination.ip, tcp + padding, 40);
    assert b[20..total] == tcp;
    SumVerifies(s);
    BytesShape(s);
    FieldsReadBack(s, b, tcp, Complement(Pseudo(s) + WordSum(BytesWith(s, 0))));
    OptionsReadBack(s, tcp);
  }

  lemma BytesShape(s: Segment)
    ensures Bytes(s) == BytesWith(s, Complement(Pseudo(s) + WordSum(BytesWith(s, 0))))
  {
    hide WordSum, Complement, BytesWith, Pseudo;
  }

  /** What the parser lets through: short payloads, and an MSS only if it is usable. */
  lemma ParsedBounds(b: seq<byte>)
    ensures Parse(b).Ok? ==> |Parse(b).value.payload| <= 0xffff - 40 && Parse(b).value.mss != Some(0)
  {
    hide WordSum, Complement, ReadOptions;
    if Parse(b).Ok? {
      var tcp := b[20..Read16(b, 2)];
      UsableMss(tcp, 20, Offset(tcp), None);
    }
  }

  lemma {:induction false} UsableMss(tcp: seq<byte>, at: nat, end: nat, mss: Option<u16>)
    requires end <= |tcp| && mss != Some(0)
    ensures ReadOptions(tcp, at, end, mss).Ok? ==> ReadOptions(tcp, at, end, mss).value != Some(0)
    decreases end - at
  {
    if at < end && tcp[at] == 1 {
      UsableMss(tcp, at + 1, end, mss);
    } else if at + 2 <= end && tcp[at + 1] >= 2 && at + tcp[at + 1] <= end {
      UsableMss(tcp, at + tcp[at + 1], end, mss);
      if tcp[at + 1] == 4 && Read16(tcp, at + 2) != 0 { UsableMss(tcp, at + 4, end, Some(Read16(tcp, at + 2))); }
    }
  }

  /** Two segments that build the same datagram are the same segment. */
  lemma Injective(s: Segment, t: Segment)
    requires Buildable(s) && Buildable(t) && Datagram(s) == Datagram(t)
    ensures s == t
  {
    hide Parse, Datagram;
    RoundTrip(s, []);
    RoundTrip(t, []);
  }

  /** No datagram that parses still parses after one of its bytes has changed. */
  lemma ByteChangeRejected(b: seq<byte>, i: nat, v: byte)
    requires Parse(b).Ok? && i < Read16(b, 2) && v != b[i]
    ensures Parse(b[i := v]).Err?
  {
    hide WordSum, Complement, ReadOptions;
    var total := Read16(b, 2);
    if i < 20 {
      HeaderChangeDetected(b, i, v, TCP, 40);
    } else {
      var c, tcp := b[i := v], b[20..total];
      assert Read16(c, 2) == total && Source(c) == Source(b) && Destination(c) == Destination(b);
      assert c[20..total] == tcp[i - 20 := v];
      ByteChangeDetected(PseudoSum(Source(b), Destination(b), TCP, |tcp|), tcp, i - 20, v);
    }
  }
}
