/**
 * Fixed-width unsigned integers and the little-endian byte view that
 * `memcpy` gives of them on the x86 machines the system targets.
 */
module Bytes {

  type byte = x: int | 0 <= x < 0x100
  type u16 = x: int | 0 <= x < 0x1_0000
  type u32 = x: int | 0 <= x < 0x1_0000_0000
  type u64 = x: int | 0 <= x < 0x1_0000_0000_0000_0000

  const TWO_32: nat := 0x1_0000_0000
  const TWO_64: nat := 0x1_0000_0000_0000_0000

  /** Number of distinct values of a `k`-byte unsigned integer. */
  function Pow256(k: nat): (r: nat)
    ensures r >= 1
  {
    if k == 0 then 1 else 256 * Pow256(k - 1)
  }

  lemma EightBytesAreU64()
    ensures Pow256(8) == TWO_64
  {
  }

  /** The value of a little-endian byte string (first byte least significant). */
  function DecodeLE(s: seq<byte>): (n: nat)
    ensures n < Pow256(|s|)
  {
    if s == [] then 0
    else
      var rest := DecodeLE(s[1..]);
      assert 256 * rest <= 256 * (Pow256(|s| - 1) - 1);
      s[0] + 256 * rest
  }

  /** The `k` low-order bytes of `n`, least significant first. */
  function EncodeLE(n: nat, k: nat): (s: seq<byte>)
    ensures |s| == k
  {
    if k == 0 then [] else [n % 256] + EncodeLE(n / 256, k - 1)
  }

  /** Writing a value that fits into `k` bytes and reading it back yields the value. */
  lemma {:induction false} DecodeEncode(n: nat, k: nat)
    requires n < Pow256(k)
    ensures DecodeLE(EncodeLE(n, k)) == n
  {
    if k > 0 {
      DecodeEncode(n / 256, k - 1);
      assert EncodeLE(n, k)[1..] == EncodeLE(n / 256, k - 1);
    }
  }

  /** Reading `k` bytes and writing the value back reproduces the bytes. */
  lemma {:induction false} EncodeDecode(s: seq<byte>)
    ensures EncodeLE(DecodeLE(s), |s|) == s
  {
    if s != [] {
      var rest := DecodeLE(s[1..]);
      assert (s[0] + 256 * rest) % 256 == s[0];
      assert (s[0] + 256 * rest) / 256 == rest;
      EncodeDecode(s[1..]);
    }
  }

  /** The 8-byte string `memcpy` produces from a `uint64_t`. */
  function U64Bytes(h: u64): (s: seq<byte>)
    ensures |s| == 8
    ensures DecodeLE(s) == h
  {
    EightBytesAreU64();
    DecodeEncode(h, 8);
    EncodeLE(h, 8)
  }

  /** The `uint64_t` that `memcpy` builds from exactly 8 bytes. */
  function U64Of(s: seq<byte>): (h: u64)
    requires |s| == 8
    ensures U64Bytes(h) == s
  {
    EightBytesAreU64();
    EncodeDecode(s);
    DecodeLE(s)
  }
}

/** The optional value that stands for a pointer that may be NULL. */
module Maybe {
  datatype Option<+T> = None | Some(value: T)
}
