/**
 Serial-number arithmetic of `src/transport/tcp.rs`, and its relation to the unbounded
 numbers that the rest of the TCP model counts in.
 */
module SequenceNumbers {
  import opened Prelude

  /** The 32-bit image of an unbounded sequence number. */
  function Wrap(x: int): u32 { x % 0x1_0000_0000 }

  function WrappingAdd(a: u32, n: int): u32 { Wrap(a + n) }

  function WrappingSub(a: u32, b: u32): u32 { Wrap(a - b) }

  /** The cast `as i32`. */
  function AsI32(x: u32): int { if x < 0x8000_0000 then x else x - 0x1_0000_0000 }

  predicate Before(a: u32, b: u32) { AsI32(WrappingSub(a, b)) < 0 }

  /** Division with remainder by 2^32 is unique. */
  lemma RemainderUnique(x: int, q: int, r: int)
    requires x == q * 0x1_0000_0000 + r && 0 <= r < 0x1_0000_0000
    ensures Wrap(x) == r
  {}

  lemma WrapShift(x: int, k: int)
    ensures Wrap(x + k * 0x1_0000_0000) == Wrap(x)
  {
    RemainderUnique(x + k * 0x1_0000_0000, x / 0x1_0000_0000 + k, Wrap(x));
  }

  /** The number congruent to `x` in the half-open window of 2^32 starting 2^31 below `base`. */
  function UnwrapSequence(x: u32, base: int): (r: int)
    ensures base - 0x8000_0000 <= r < base + 0x8000_0000
    ensures Wrap(r) == x
  {
    var d := AsI32(Wrap(x - base));
    var k := (x - base - d) / 0x1_0000_0000;
    assert x - base - d == k * 0x1_0000_0000;
    RemainderUnique(base + d, -k, x);
    base + d
  }

  /** As above with the window open below and closed above, the side on which `Before` rejects
      an acknowledgment exactly half the space ahead. */
  function UnwrapAck(x: u32, base: int): (r: int)
    ensures base - 0x8000_0000 < r <= base + 0x8000_0000
    ensures Wrap(r) == x
  {
    var d := AsI32(Wrap(base - x));
    var k := (base - x - d) / 0x1_0000_0000;
    assert base - x - d == k * 0x1_0000_0000;
    RemainderUnique(base - d, k, x);
    base - d
  }

  lemma WrapInjective(a: int, b: int)
    requires -0x1_0000_0000 < a - b < 0x1_0000_0000
    ensures Wrap(a) == Wrap(b) <==> a == b
  {
    var p, q := a / 0x1_0000_0000, b / 0x1_0000_0000;
    assert a == p * 0x1_0000_0000 + Wrap(a);
    assert b == q * 0x1_0000_0000 + Wrap(b);
  }

  lemma WrapAdd(a: int, n: int)
    ensures WrappingAdd(Wrap(a), n) == Wrap(a + n)
  {
    WrapShift(a + n, -(a / 0x1_0000_0000));
  }

  lemma WrapSub(a: int, b: int)
    ensures WrappingSub(Wrap(a), Wrap(b)) == Wrap(a - b)
    ensures 0 <= a - b < 0x1_0000_0000 ==> WrappingSub(Wrap(a), Wrap(b)) == a - b
  {
    WrapShift(a - b, b / 0x1_0000_0000 - a / 0x1_0000_0000);
  }

  /** Within half the sequence space the wrapping comparison orders the unbounded numbers. */
  lemma BeforeIsLess(a: int, b: int)
    requires -0x8000_0000 <= a - b < 0x8000_0000
    ensures Before(Wrap(a), Wrap(b)) <==> a < b
  {
    WrapSub(a, b);
    if a < b {
      RemainderUnique(a - b, -1, a - b + 0x1_0000_0000);
    } else {
      RemainderUnique(a - b, 0, a - b);
    }
  }

  /** A genuine number is recovered from its 32-bit image by any base less than 2^31 away. */
  lemma UnwrapExact(x: int, base: int)
    requires -0x8000_0000 < x - base < 0x8000_0000
    ensures UnwrapSequence(Wrap(x), base) == x
    ensures UnwrapAck(Wrap(x), base) == x
  {
    WrapInjective(UnwrapSequence(Wrap(x), base), x);
    WrapInjective(UnwrapAck(Wrap(x), base), x);
  }
}
