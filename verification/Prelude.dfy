/**
 Shared value types. A `Duration` of the stack is a number of nanoseconds; its saturating
 operations clamp at the largest duration the Rust type can hold.
 */
module Prelude {

  datatype Option<+T> = None | Some(value: T)

  datatype Result<+T, +E> = Ok(value: T) | Err(error: E)

  type byte = x: int | 0 <= x < 0x100
  type u16 = x: int | 0 <= x < 0x1_0000
  type u32 = x: int | 0 <= x < 0x1_0000_0000
  type u64 = x: int | 0 <= x < 0x1_0000_0000_0000_0000

  /** The octets of an IPv4 address. */
  type Ipv4 = s: seq<byte> | |s| == 4 witness [0, 0, 0, 0]

  datatype Endpoint = Endpoint(ip: Ipv4, port: u16)

  /** Nanoseconds. */
  type Time = nat

  const DURATION_MAX: nat := 18446744073709551615999999999
  const USIZE_MAX: nat := 0xffff_ffff_ffff_ffff
  const MILLISECOND: nat := 1_000_000
  const SECOND: nat := 1_000_000_000

  function Min(a: int, b: int): int { if a <= b then a else b }

  function Max(a: int, b: int): int { if a <= b then b else a }

  /** `Duration::saturating_add`. */
  function LaterBy(at: Time, delay: Time): Time { Min(at + delay, DURATION_MAX) }

  /** `Duration::saturating_mul`. */
  function Times(d: Time, k: nat): Time { Min(d * k, DURATION_MAX) }

  /** `saturating_sub` on durations and on sizes. */
  function Monus(a: nat, b: nat): nat { if a <= b then 0 else a - b }

  /** `usize::saturating_add`. */
  function SizeAdd(a: nat, b: nat): nat { Min(a + b, USIZE_MAX) }

  function Last<T>(s: seq<T>): T
    requires s != []
  {
    s[|s| - 1]
  }

  lemma MulBounds(a: int, d: int)
    requires 0 <= d
    ensures a >= 1 ==> a * d >= d
    ensures a <= -1 ==> a * d <= -d
  {
    if a >= 1 {
      assert a * d == d + (a - 1) * d;
    } else if a <= -1 {
      assert a * d == -d + (a + 1) * d;
    }
  }

  /** Division with remainder is unique. */
  lemma RemainderOf(x: nat, d: nat, q: nat, r: nat)
    requires d > 0 && x == q * d + r && r < d
    ensures x % d == r && x / d == q
  {
    var p, e := x / d, x % d;
    assert x == p * d + e;
    assert (p - q) * d == p * d - q * d == r - e;
    MulBounds(p - q, d);
  }
}
