// Fixed width little-endian integers and minimal big-endian naturals, as byte sequences.
module Bytes {
  type byte = b: int | 0 <= b < 256
  type int8 = x: int | -0x80 <= x < 0x80
  type int32 = x: int | -0x8000_0000 <= x < 0x8000_0000
  type int64 = x: int | -0x8000_0000_0000_0000 <= x < 0x8000_0000_0000_0000

  const MAX_INT32 := 0x7FFF_FFFF

  function Pow256(n: nat): (p: nat)
    ensures p > 0 && (n > 0 ==> p % 256 == 0)
  {
    if n == 0 then 1 else 256 * Pow256(n - 1)
  }

  function Pow2(n: nat): (p: nat)
    ensures p > 0
  {
    if n == 0 then 1 else 2 * Pow2(n - 1)
  }

  // The low n bytes of v, least significant first.  Dafny's `/` and `%` round towards minus
  // infinity here, so a negative v yields its two's complement, as Go's conversions do.
  function LE(n: nat, v: int): (s: seq<byte>)
    ensures |s| == n
  {
    if n == 0 then [] else [v % 256] + LE(n - 1, v / 256)
  }

  function FromLE(s: seq<byte>): (v: nat)
    ensures v < Pow256(|s|)
  {
    if s == [] then 0 else s[0] + 256 * FromLE(s[1..])
  }

  // Byte i counts for 256^i.
  lemma {:induction false} LEDigits(n: nat, v: int, i: nat)
    requires i < n
    ensures LE(n, v)[i] == v / Pow256(i) % 256
  {
    if i > 0 {
      LEDigits(n - 1, v / 256, i - 1);
      DivTwice(v, Pow256(i - 1));
    }
  }

  lemma DivTwice(v: int, p: nat)
    requires p > 0
    ensures v / 256 / p == v / (256 * p)
  {
    var q, r := v / 256, v % 256;
    var k, m := q / p, q % p;
    assert 256 * (p * k + m) == (256 * p) * k + 256 * m by {
      assert 256 * (p * k) == (256 * p) * k;
    }
    DivModUnique(v, 256 * p, k, 256 * m + r);
  }

  // Reinterprets an unsigned n byte value as a signed one.
  function Signed(n: nat, u: int): int {
    if 2 * u < Pow256(n) then u else u - Pow256(n)
  }

  lemma ModSplit(v: int, p: nat)
    requires p > 0
    ensures v % (256 * p) == v % 256 + 256 * ((v / 256) % p)
  {
    var q, r := v / 256, v % 256;
    var k, m := q / p, q % p;
    assert q == p * k + m;
    assert v == (256 * p) * k + (256 * m + r) by {
      assert 256 * (p * k) == (256 * p) * k;
    }
    DivModUnique(v, 256 * p, k, 256 * m + r);
  }

  lemma DivModUnique(v: int, d: nat, k: int, m: int)
    requires d > 0 && v == d * k + m && 0 <= m < d
    ensures v / d == k && v % d == m
  {
    var k', m' := v / d, v % d;
    assert d * (k - k') == m' - m by {
      assert d * (k - k') == d * k - d * k';
    }
    assert d * (k' - k) == m - m' by {
      assert d * (k' - k) == d * k' - d * k;
    }
    if k > k' {
      MulAtLeast(d, k - k');
    } else if k < k' {
      MulAtLeast(d, k' - k);
    }
  }

  lemma MulAtLeast(d: nat, x: int)
    requires x >= 1
    ensures d * x >= d
  {
    assert d * x == d + d * (x - 1);
  }

  // Writing n bytes and reading them back keeps the value modulo 256^n.
  lemma {:induction false} FromLEOfLE(n: nat, v: int)
    ensures FromLE(LE(n, v)) == v % Pow256(n)
  {
    if n == 0 {
    } else {
      FromLEOfLE(n - 1, v / 256);
      ModSplit(v, Pow256(n - 1));
      assert LE(n, v)[1..] == LE(n - 1, v / 256);
    }
  }

  lemma UnsignedRoundTrip(n: nat, v: int)
    requires 0 <= v < Pow256(n)
    ensures FromLE(LE(n, v)) == v
  {
    FromLEOfLE(n, v);
    DivModUnique(v, Pow256(n), 0, v);
  }

  lemma SignedRoundTrip(n: nat, v: int)
    requires 0 - Pow256(n) <= 2 * v < Pow256(n)
    ensures Signed(n, FromLE(LE(n, v))) == v
  {
    FromLEOfLE(n, v);
    if v >= 0 {
      DivModUnique(v, Pow256(n), 0, v);
    } else {
      DivModUnique(v, Pow256(n), -1, v + Pow256(n));
    }
  }

  // Any v is read back as the signed value congruent to it: Go's wrap-around conversion.
  lemma WrapRoundTrip(n: nat, v: int)
    ensures Signed(n, FromLE(LE(n, v))) == Wrap(n, v)
  {
    FromLEOfLE(n, v);
  }

  function Wrap(n: nat, v: int): int {
    Signed(n, v % Pow256(n))
  }

  lemma Widths()
    ensures Pow256(0) == 1 && Pow256(1) == 0x100 && Pow256(2) == 0x1_0000
    ensures Pow256(4) == 0x1_0000_0000 && Pow256(8) == 0x1_0000_0000_0000_0000
  {
    assert Pow256(2) == 256 * Pow256(1);
    assert Pow256(3) == 256 * Pow256(2);
    assert Pow256(4) == 256 * Pow256(3);
    assert Pow256(5) == 256 * Pow256(4);
    assert Pow256(6) == 256 * Pow256(5);
    assert Pow256(7) == 256 * Pow256(6);
  }

  lemma {:induction false} LEOfFromLE(s: seq<byte>)
    ensures LE(|s|, FromLE(s)) == s
  {
    if s == [] {
    } else {
      LEOfFromLE(s[1..]);
      DivModUnique(FromLE(s), 256, FromLE(s[1..]), s[0]);
      assert s == [s[0]] + s[1..];
    }
  }

  // Go's truncated quotient and remainder for a positive divisor.
  function TruncDiv(a: int, d: int): int
    requires d > 0
  {
    if a >= 0 then a / d else -((-a) / d)
  }

  function TruncMod(a: int, d: int): int
    requires d > 0
  {
    a - d * TruncDiv(a, d)
  }

  function ToInt32(v: int): int32 {
    Widths();
    Wrap(4, v)
  }

  function ToInt64(v: int): int64 {
    Widths();
    Wrap(8, v)
  }

  lemma Int32Fixed(v: int32)
    ensures ToInt32(v) == v && Signed(4, FromLE(LE(4, v))) == v
  {
    Widths();
    SignedRoundTrip(4, v);
    WrapRoundTrip(4, v);
  }

  lemma Int64Fixed(v: int64)
    ensures ToInt64(v) == v && Signed(8, FromLE(LE(8, v))) == v
  {
    Widths();
    SignedRoundTrip(8, v);
    WrapRoundTrip(8, v);
  }

  function Reverse(s: seq<byte>): (r: seq<byte>)
    ensures |r| == |s|
    ensures forall i :: 0 <= i < |s| ==> r[i] == s[|s| - 1 - i]
  {
    if s == [] then [] else Reverse(s[1..]) + [s[0]]
  }

  lemma ReverseTwice(s: seq<byte>)
    ensures Reverse(Reverse(s)) == s
  {
  }

  // big.Int.Bytes: most significant byte first, empty for zero.
  function BigEndian(v: nat): (s: seq<byte>)
    ensures s == [] <==> v == 0
    ensures s != [] ==> s[0] != 0
  {
    if v == 0 then [] else BigEndian(v / 256) + [v % 256]
  }

  // The last byte counts for one, the one before it for 256, and so on.
  lemma {:induction false} BigEndianDigits(v: nat, i: nat)
    requires i < |BigEndian(v)|
    ensures BigEndian(v)[|BigEndian(v)| - 1 - i] == v / Pow256(i) % 256
    decreases i
  {
    if i > 0 {
      BigEndianDigits(v / 256, i - 1);
      DivTwice(v, Pow256(i - 1));
    }
  }

  // big.Int.SetBytes
  function FromBigEndian(s: seq<byte>): nat {
    if s == [] then 0 else 256 * FromBigEndian(s[..|s| - 1]) + s[|s| - 1]
  }

  lemma {:induction false} FromBigEndianOfBigEndian(v: nat)
    ensures FromBigEndian(BigEndian(v)) == v
  {
    if v == 0 {
    } else {
      FromBigEndianOfBigEndian(v / 256);
      var s := BigEndian(v);
      assert s[..|s| - 1] == BigEndian(v / 256);
    }
  }

  lemma {:induction false} LeadingZero(s: seq<byte>)
    ensures FromBigEndian([0] + s) == FromBigEndian(s)
  {
    var t := [0] + s;
    if s == [] {
      assert t[..0] == [];
    } else {
      LeadingZero(s[..|s| - 1]);
      assert t[..|t| - 1] == [0] + s[..|s| - 1];
    }
  }

  function Zeros(n: nat): (s: seq<byte>)
    ensures |s| == n
  {
    seq(n, _ => 0)
  }
}
