/** Bytes, and fixed-width little-endian numbers: how the engine's host lays out integers in memory. */
module Bytes {
  type byte = b: int | 0 <= b < 256

  function Pow256(k: nat): (p: nat)
    ensures p > 0
  {
    if k == 0 then 1 else 256 * Pow256(k - 1)
  }

  /** The low k bytes of n, least significant first. */
  function LE(n: nat, k: nat): (s: seq<byte>)
    ensures |s| == k
  {
    if k == 0 then [] else [n % 256] + LE(n / 256, k - 1)
  }

  function FromLE(s: seq<byte>): nat {
    if s == [] then 0 else s[0] + 256 * FromLE(s[1..])
  }

  lemma {:induction false} LERoundTrip(n: nat, k: nat)
    requires n < Pow256(k)
    ensures FromLE(LE(n, k)) == n
  {
    if k > 0 {
      assert LE(n, k)[1..] == LE(n / 256, k - 1);
      LERoundTrip(n / 256, k - 1);
    }
  }

  /** The lowest byte comes first: byte i counts multiples of 256 to the power i. */
  lemma {:induction false} LowestFirst(n: nat, k: nat, i: nat)
    requires i < k
    ensures LE(n, k)[i] == n / Pow256(i) % 256
  {
    if i > 0 {
      LowestFirst(n / 256, k - 1, i - 1);
      DivTwice(n, Pow256(i - 1));
    }
  }

  lemma DivTwice(n: nat, p: nat)
    requires p > 0
    ensures n / (256 * p) == n / 256 / p
  {
    var q, r := n / 256, n % 256;
    var a, b := q / p, q % p;
    assert q == a * p + b;
    assert n == 256 * q + r;
    assert 256 * (a * p + b) + r == a * (256 * p) + (256 * b + r);
    assert 0 <= 256 * b + r < 256 * p;
    Quotient(n, 256 * p, a, 256 * b + r);
  }

  lemma Quotient(n: nat, d: nat, q: nat, r: nat)
    requires d > 0 && n == q * d + r && r < d
    ensures n / d == q
  {
    var e := n / d;
    if e < q {
      Ordered(e + 1, q, d);
    } else if e > q {
      Ordered(q + 1, e, d);
    }
  }

  lemma Ordered(p: int, q: int, d: nat)
    requires p <= q
    ensures p * d <= q * d
  {
  }

  /** Every sequence of bytes is the little-endian form of the number that it is read as. */
  lemma {:induction false} ReadAndWritten(s: seq<byte>)
    ensures LE(FromLE(s), |s|) == s
  {
    if s != [] {
      ReadAndWritten(s[1..]);
      assert FromLE(s) % 256 == s[0] && FromLE(s) / 256 == FromLE(s[1..]);
    }
  }

  lemma {:induction false} FromLEBound(s: seq<byte>)
    ensures FromLE(s) < Pow256(|s|)
  {
    if s != [] {
      FromLEBound(s[1..]);
    }
  }

  const TWO16 := 0x1_0000
  const TWO63 := 0x8000_0000_0000_0000
  const TWO64 := 0x1_0000_0000_0000_0000

  lemma Widths()
    ensures Pow256(2) == TWO16 && Pow256(8) == TWO64
  {
    assert Pow256(4) == 0x1_0000_0000;
    assert Pow256(6) == 0x1_0000_0000_0000;
  }

  type u64 = n: int | 0 <= n < TWO64
  type i64 = n: int | -TWO63 <= n < TWO63

  /** The two's complement reading of a 64-bit word, and back. */
  function ToSigned(n: u64): i64 { if n < TWO63 then n else n - TWO64 }

  function ToUnsigned(n: i64): u64 { if n < 0 then n + TWO64 else n }

  /** A word stands for the signed number that is the same modulo 2 to the power 64. */
  lemma TwosComplement(n: i64)
    ensures ToUnsigned(n) == n % TWO64 && ToSigned(ToUnsigned(n)) == n
  {
  }

  /** The bytes b are what buf holds at position pos. */
  predicate HoldsAt(buf: seq<byte>, pos: nat, b: seq<byte>) {
    pos + |b| <= |buf| && buf[pos..pos + |b|] == b
  }

  lemma HoldsSplit(buf: seq<byte>, pos: nat, a: seq<byte>, b: seq<byte>)
    requires HoldsAt(buf, pos, a + b)
    ensures HoldsAt(buf, pos, a) && HoldsAt(buf, pos + |a|, b)
  {
    var all := buf[pos..pos + |a + b|];
    assert buf[pos..pos + |a|] == all[..|a|] == a;
    assert buf[pos + |a|..pos + |a| + |b|] == all[|a|..] == b;
  }
}
