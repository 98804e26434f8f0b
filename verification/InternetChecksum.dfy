/** The Internet checksum (RFC 1071) of `src/net/mod.rs`. */
module InternetChecksum {
  import opened Prelude

  function Hi(x: u16): byte { x / 256 }

  function Lo(x: u16): byte { x % 256 }

  function Word(high: byte, low: byte): u16 { high as int * 256 + low }

  function Be16(x: u16): (b: seq<byte>)
    ensures |b| == 2 && Word(b[0], b[1]) == x
  {
    [Hi(x), Lo(x)]
  }

  /** The sum of the big-endian words of a message; an odd last byte is the high half of a word. */
  function WordSum(b: seq<byte>): nat {
    if b == [] then 0
    else if |b| == 1 then Word(b[0], 0)
    else Word(b[0], b[1]) + WordSum(b[2..])
  }

  /** The one's-complement sum of 16-bit words whose ordinary sum is `n`: its residue modulo 65535,
      where a positive multiple of 65535 is written as 0xffff. */
  function Fold(n: nat): u16 { if n == 0 then 0 else (n - 1) % 0xffff + 1 }

  function Complement(n: nat): u16 { 0xffff - Fold(n) }

  // ---------------------------------------------------------------- the loops

  method SumWords(bytes: seq<byte>) returns (sum: nat)
    ensures sum == WordSum(bytes)
    ensures sum <= 0xffff * ((|bytes| + 1) / 2)
  {
    sum := 0;
    var i := 0;
    while i + 2 <= |bytes|
      invariant 0 <= i <= |bytes| && i % 2 == 0
      invariant sum + WordSum(bytes[i..]) == WordSum(bytes)
      invariant sum <= 0xffff * (i / 2)
    {
      assert bytes[i..][2..] == bytes[i + 2..];
      sum := sum + Word(bytes[i], bytes[i + 1]);
      i := i + 2;
    }
    if i < |bytes| {
      sum := sum + Word(bytes[i], 0);
    }
  }

  lemma ResidueUnique(x: int, q: int, r: int)
    requires x == q * 0xffff + r && 0 <= r < 0xffff
    ensures x % 0xffff == r
  {}

  /** Adding the high part to the low part changes a sum by a multiple of 65535. */
  lemma FoldCarry(n: nat)
    requires n >= 0x1_0000
    ensures Fold(n % 0x1_0000 + n / 0x1_0000) == Fold(n)
  {
    var q, r := n / 0x1_0000, n % 0x1_0000;
    var m := q + r;
    assert n == q * 0x1_0000 + r && m >= 1;
    ResidueUnique(n - 1, q + (m - 1) / 0xffff, (m - 1) % 0xffff);
  }

  method FinishSum(total: nat) returns (r: u16)
    ensures r == Complement(total)
  {
    var sum := total;
    while sum / 0x1_0000 != 0
      invariant Fold(sum) == Fold(total)
      decreases sum
    {
      FoldCarry(sum);
      sum := sum % 0x1_0000 + sum / 0x1_0000;
    }
    assert Fold(sum) == sum;
    r := 0xffff - sum;
  }

  method Checksum(bytes: seq<byte>) returns (r: u16)
    ensures r == Complement(WordSum(bytes))
  {
    var sum := SumWords(bytes);
    r := FinishSum(sum);
  }

  // ---------------------------------------------------------------- what the checksum promises

  lemma {:induction false} WordSumConcat(a: seq<byte>, b: seq<byte>)
    requires |a| % 2 == 0
    ensures WordSum(a + b) == WordSum(a) + WordSum(b)
  {
    if a == [] {
      assert a + b == b;
    } else {
      assert (a + b)[2..] == a[2..] + b;
      WordSumConcat(a[2..], b);
    }
  }

  /** A sum verifies exactly when it is a positive multiple of 65535. */
  lemma VerifiesIff(n: nat)
    ensures Complement(n) == 0 <==> n > 0 && n % 0xffff == 0
  {
    if n > 0 {
      if n % 0xffff == 0 {
        ResidueUnique(n - 1, n / 0xffff - 1, 0xfffe);
      } else {
        ResidueUnique(n - 1, n / 0xffff, n % 0xffff - 1);
      }
    }
  }

  /** Storing the complement of the sum, or 0xffff in place of 0, makes the message verify. */
  lemma StoredSumVerifies(n: nat)
    ensures Complement(n + Complement(n)) == 0
    ensures Complement(n) == 0 ==> Complement(n + 0xffff) == 0
  {
    VerifiesIff(n + Complement(n));
    VerifiesIff(n + 0xffff);
    VerifiesIff(n);
    if n > 0 {
      var q, r := (n - 1) / 0xffff, (n - 1) % 0xffff;
      ResidueUnique(n + Complement(n), q + 1, 0);
      if Complement(n) == 0 { ResidueUnique(n + 0xffff, q + 2, 0); }
    }
  }

  lemma FieldSum(pre: seq<byte>, x: u16, post: seq<byte>)
    requires |pre| % 2 == 0
    ensures WordSum(pre + Be16(x) + post) == WordSum(pre) + x + WordSum(post)
    ensures WordSum(pre + [0, 0] + post) == WordSum(pre) + WordSum(post)
  {
    var a, z: seq<byte> := Be16(x), [0, 0];
    assert WordSum(a) == x by { assert a[2..] == []; }
    assert WordSum(z) == 0 by { assert z[2..] == []; }
    WordSumConcat(pre + a, post);
    WordSumConcat(pre, a);
    WordSumConcat(pre + z, post);
    WordSumConcat(pre, z);
  }

  /** A checksum computed over a zero field and stored there, as 0xffff where a zero field means
      that there is none, makes the message verify. */
  lemma FieldVerifies(base: nat, pre: seq<byte>, x: u16, post: seq<byte>)
    requires |pre| % 2 == 0
    requires
      var sum := Complement(base + WordSum(pre + [0, 0] + post));
      x == sum || (sum == 0 && x == 0xffff)
    ensures Complement(base + WordSum(pre + Be16(x) + post)) == 0
  {
    hide WordSum, Complement, Be16;
    FieldSum(pre, x, post);
    var n := base + WordSum(pre) + WordSum(post);
    assert base + WordSum(pre + [0, 0] + post) == n;
    StoredSumVerifies(n);
    assert base + WordSum(pre + Be16(x) + post) == n + x;
  }

  function Weight(i: nat): nat { if i % 2 == 0 then 256 else 1 }

  lemma {:induction false} WordSumUpdate(b: seq<byte>, i: nat, v: byte)
    requires i < |b|
    ensures WordSum(b[i := v]) == WordSum(b) + (v - b[i]) * Weight(i)
  {
    if |b| >= 2 {
      if i < 2 {
        assert b[i := v][2..] == b[2..];
      } else {
        assert b[i := v][2..] == b[2..][i - 2 := v];
        WordSumUpdate(b[2..], i - 2, v);
      }
    }
  }

  /** No change of a single byte goes unnoticed. */
  lemma ByteChangeDetected(base: nat, b: seq<byte>, i: nat, v: byte)
    requires i < |b| && v != b[i] && Complement(base + WordSum(b)) == 0
    ensures Complement(base + WordSum(b[i := v])) != 0
  {
    hide WordSum, Complement;
    var n, m := base + WordSum(b), base + WordSum(b[i := v]);
    WordSumUpdate(b, i, v);
    VerifiesIff(n);
    VerifiesIff(m);
    var d := (v - b[i]) * Weight(i);
    assert d != 0 && -0xffff < d < 0xffff;
    assert m == n + d;
    if d > 0 {
      ResidueUnique(m, n / 0xffff, d);
    } else {
      ResidueUnique(m, n / 0xffff - 1, 0xffff + d);
    }
  }
}
