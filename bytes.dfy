/**
 * Machine integers of the source (u8, u64/usize on a 64-bit target) and the
 * big-endian byte conversions `to_be_bytes` / `from_be_bytes`.
 */
module Bytes {

  type u8 = b: int | 0 <= b < 256

  const U64_LIMIT: nat := 0x1_0000_0000_0000_0000

  type u64 = x: int | 0 <= x < 0x1_0000_0000_0000_0000

  /** `usize` on the 64-bit targets the level files are written on (size_of::<usize>() == 8). */
  type usize = u64

  /** `isize::MAX`, which also bounds the length of any `Vec<u8>`. */
  const ISIZE_MAX: nat := 0x7FFF_FFFF_FFFF_FFFF

  /** Number of bytes in a serialised `usize` or `f64`. */
  const WORD_BYTES: nat := 8

  function Pow256(n: nat): (r: nat)
    ensures r >= 1
  {
    if n == 0 then 1 else 256 * Pow256(n - 1)
  }

  lemma Pow256Word()
    ensures Pow256(WORD_BYTES) == U64_LIMIT
  {
    assert Pow256(2) == 0x1_0000;
    assert Pow256(4) == 0x1_0000_0000;
    assert Pow256(6) == 0x1_0000_0000_0000;
  }

  /** The `n` bytes of `x`, most significant first. */
  function ToBeBytes(x: nat, n: nat): (r: seq<u8>)
    requires x < Pow256(n)
    ensures |r| == n
  {
    if n == 0 then []
    else
      assert x / 256 < Pow256(n - 1);
      ToBeBytes(x / 256, n - 1) + [x % 256]
  }

  /** The number whose big-endian bytes are `b`. */
  function FromBeBytes(b: seq<u8>): (r: nat)
    ensures r < Pow256(|b|)
  {
    if b == [] then 0
    else
      var hi := FromBeBytes(b[..|b| - 1]);
      assert hi * 256 + b[|b| - 1] < Pow256(|b|) by {
        assert hi <= Pow256(|b| - 1) - 1;
        assert hi * 256 <= Pow256(|b|) - 256;
      }
      hi * 256 + b[|b| - 1]
  }

  /** Reading back what was written gives the number that was written. */
  lemma {:induction false} FromToBeBytes(x: nat, n: nat)
    requires x < Pow256(n)
    ensures FromBeBytes(ToBeBytes(x, n)) == x
  {
    if n > 0 {
      var b := ToBeBytes(x, n);
      assert b[..n - 1] == ToBeBytes(x / 256, n - 1);
      FromToBeBytes(x / 256, n - 1);
    }
  }

  /** Writing what was read gives back the bytes that were read. */
  lemma {:induction false} ToFromBeBytes(b: seq<u8>)
    ensures ToBeBytes(FromBeBytes(b), |b|) == b
  {
    if b != [] {
      var n := |b|;
      var x := FromBeBytes(b);
      var hi := FromBeBytes(b[..n - 1]);
      assert x / 256 == hi && x % 256 == b[n - 1];
      ToFromBeBytes(b[..n - 1]);
      assert b == b[..n - 1] + [b[n - 1]];
    }
  }

  /** `u64::to_be_bytes` (and `usize::to_be_bytes` on a 64-bit target). */
  function U64ToBeBytes(x: u64): (r: seq<u8>)
    ensures |r| == WORD_BYTES
    ensures FromBeBytes(r) == x
  {
    Pow256Word();
    FromToBeBytes(x, WORD_BYTES);
    ToBeBytes(x, WORD_BYTES)
  }

  /** `u64::from_be_bytes` on an 8-byte array. */
  function U64FromBeBytes(b: seq<u8>): (r: u64)
    requires |b| == WORD_BYTES
    ensures U64ToBeBytes(r) == b
  {
    Pow256Word();
    ToFromBeBytes(b);
    FromBeBytes(b)
  }
}
