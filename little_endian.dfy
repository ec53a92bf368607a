/**
 * The byte encoding of integers used by System.BitConverter on a
 * little-endian machine: the lowest `width` bytes of the two's complement
 * representation, least significant byte first.
 */
module LittleEndian {

  newtype byte = x: int | 0 <= x < 256

  /** 256 to the power `width`: the number of distinct `width`-byte values. */
  function Pow256(width: nat): (p: nat)
    ensures p >= 1
  {
    if width == 0 then 1 else 256 * Pow256(width - 1)
  }

  /**
   * BitConverter.GetBytes for a value of `width` bytes, followed by keeping
   * all of them. Dafny's `%` and `/` are Euclidean, so a negative `v` yields
   * its two's complement bytes, as a C# short, int or long does.
   */
  function ToBytes(v: int, width: nat): (bs: seq<byte>)
    ensures |bs| == width
    decreases width
  {
    if width == 0 then [] else [(v % 256) as byte] + ToBytes(v / 256, width - 1)
  }

  /** Reads `bs` back as an unsigned little-endian number. */
  function FromBytes(bs: seq<byte>): (v: nat)
    ensures v < Pow256(|bs|)
  {
    if bs == [] then 0 else bs[0] as nat + 256 * FromBytes(bs[1..])
  }

  /** Reads two bytes back as a signed 16-bit number (a C# short). */
  function FromBytes16(bs: seq<byte>): (v: int)
    requires |bs| == 2
    ensures -32768 <= v < 32768
  {
    var u := FromBytes(bs);
    if u >= 32768 then u - 65536 else u
  }

  /** Euclidean division has a unique quotient and remainder. */
  lemma ModUnique(v: int, m: int, a: int, b: int)
    requires m > 0 && v == m * a + b && 0 <= b < m
    ensures v % m == b
  {
    var a', b' := v / m, v % m;
    var d := a - a';
    assert m * d == b' - b by {
      assert m * d == m * a - m * a';
    }
    if d != 0 {
      MulAwayFromZero(m, d);
    }
  }

  lemma MulAwayFromZero(m: int, d: int)
    requires m > 0 && d != 0
    ensures m * d >= m || m * d <= -m
  {
    if d > 0 {
      MulAtLeast(m, d);
    } else {
      MulAtLeast(m, -d);
      assert m * d == -(m * (-d));
    }
  }

  lemma {:induction false} MulAtLeast(m: int, d: int)
    requires m > 0 && d >= 1
    ensures m * d >= m
    decreases d
  {
    if d > 1 {
      MulAtLeast(m, d - 1);
      assert m * d == m * (d - 1) + m;
    }
  }

  /** Splitting off the lowest byte of a remainder. */
  lemma ModSplit(v: int, p: nat)
    requires p >= 1
    ensures v % (256 * p) == v % 256 + 256 * ((v / 256) % p)
  {
    var q, r := v / 256, v % 256;
    var q2, r2 := q / p, q % p;
    assert v == 256 * q + r;
    assert q == p * q2 + r2;
    assert v == (256 * p) * q2 + (256 * r2 + r);
    assert 256 * r2 + r < 256 * p by {
      assert r2 <= p - 1;
      assert 256 * r2 <= 256 * (p - 1);
    }
    ModUnique(v, 256 * p, q2, 256 * r2 + r);
  }

  /** Decoding the bytes gives back the value modulo 256^width. */
  lemma {:induction false} FromToBytes(v: int, width: nat)
    ensures FromBytes(ToBytes(v, width)) == v % Pow256(width)
    decreases width
  {
    if width > 0 {
      FromToBytes(v / 256, width - 1);
      ModSplit(v, Pow256(width - 1));
    }
  }

  /** Encoding a decoded byte sequence gives back the same bytes. */
  lemma {:induction false} ToFromBytes(bs: seq<byte>)
    ensures ToBytes(FromBytes(bs), |bs|) == bs
  {
    if bs != [] {
      var rest := FromBytes(bs[1..]);
      assert (bs[0] as nat + 256 * rest) % 256 == bs[0] as nat;
      assert (bs[0] as nat + 256 * rest) / 256 == rest;
      ToFromBytes(bs[1..]);
    }
  }

  /**
   * Only the value modulo 256^width matters: a C# computation that wraps
   * around in 32 bits writes the same four bytes as the exact product.
   */
  lemma ToBytesMod(v: int, width: nat)
    ensures ToBytes(v % Pow256(width), width) == ToBytes(v, width)
  {
    ToFromBytes(ToBytes(v, width));
    FromToBytes(v, width);
  }

  /** The low bytes of a wider encoding are the narrower encoding. */
  lemma {:induction false} ToBytesPrefix(v: int, wide: nat, narrow: nat)
    requires narrow <= wide
    ensures ToBytes(v, wide)[..narrow] == ToBytes(v, narrow)
    decreases narrow
  {
    if narrow > 0 {
      ToBytesPrefix(v / 256, wide - 1, narrow - 1);
    }
  }

  /** A short written as two bytes reads back as the same short. */
  lemma Bytes16RoundTrip(v: int)
    requires -32768 <= v < 32768
    ensures FromBytes16(ToBytes(v, 2)) == v
  {
    FromToBytes(v, 2);
    assert Pow256(2) == 65536;
    if v < 0 {
      ModUnique(v, 65536, -1, v + 65536);
    } else {
      ModUnique(v, 65536, 0, v);
    }
  }

  /** A value that fits in `width` bytes reads back exactly. */
  lemma FitsRoundTrip(v: int, width: nat)
    requires 0 <= v < Pow256(width)
    ensures FromBytes(ToBytes(v, width)) == v
  {
    FromToBytes(v, width);
    ModUnique(v, Pow256(width), 0, v);
  }
}
