/** The segment of `src/transport/tcp.rs`: the value that is built into and parsed from a datagram. */
module TcpSegment {
  import opened Prelude

  const FIN: byte := 0x01
  const SYN: byte := 0x02
  const RST: byte := 0x04
  const PSH: byte := 0x08
  const ACK: byte := 0x10

  predicate HasFin(flags: byte) { flags % 2 == 1 }

  predicate HasSyn(flags: byte) { flags / 2 % 2 == 1 }

  predicate HasRst(flags: byte) { flags / 4 % 2 == 1 }

  predicate HasAck(flags: byte) { flags / 16 % 2 == 1 }

  /** `flags & !SYN`. */
  function WithoutSyn(flags: byte): byte { if HasSyn(flags) then flags - SYN else flags }

  datatype Segment = Segment(
    source: Endpoint,
    destination: Endpoint,
    sequence: u32,
    acknowledgment: u32,
    flags: byte,
    window: u16,
    mss: Option<u16>,
    payload: seq<byte>)

  /** Sequence numbers that data and control flags occupy. */
  function SequenceLength(flags: byte, payload: seq<byte>): nat {
    |payload| + (if HasSyn(flags) then 1 else 0) + (if HasFin(flags) then 1 else 0)
  }
}
