/**
 * Bytes and unsigned 64-bit integers as the ledger server uses them:
 * `u8` bytes, `u64` amounts and balances, `to_le_bytes`, and the checked
 * arithmetic `checked_sub` / `checked_add` that never wraps around.
 */
module Bytes {
  import opened Wrappers

  newtype u8 = x: int | 0 <= x < 256

  /** 2^64, the number of distinct `u64` values. */
  const U64_LIMIT: int := 0x1_0000_0000_0000_0000
  const U64_MAX: int := U64_LIMIT - 1

  type u64 = x: int | 0 <= x < 0x1_0000_0000_0000_0000

  /** 256^k: the number of values `k` bytes can hold. */
  function Pow256(k: nat): (p: nat)
    ensures p >= 1
  {
    if k == 0 then 1 else 256 * Pow256(k - 1)
  }

  lemma Pow256Eight()
    ensures Pow256(8) == U64_LIMIT
  {
  }

  /** The low `width` bytes of `n`, least significant first. */
  function ToLittleEndian(n: nat, width: nat): (r: seq<u8>)
    ensures |r| == width
  {
    if width == 0 then [] else [(n % 256) as u8] + ToLittleEndian(n / 256, width - 1)
  }

  /** The number whose little-endian encoding is `s`. */
  function FromLittleEndian(s: seq<u8>): (n: nat)
    ensures n < Pow256(|s|)
  {
    if s == [] then 0 else s[0] as nat + 256 * FromLittleEndian(s[1..])
  }

  /** Decoding undoes encoding whenever `n` fits in `width` bytes. */
  lemma {:induction false} LittleEndianRoundTrip(n: nat, width: nat)
    requires n < Pow256(width)
    ensures FromLittleEndian(ToLittleEndian(n, width)) == n
  {
    if width > 0 {
      var rest := ToLittleEndian(n / 256, width - 1);
      assert ToLittleEndian(n, width)[1..] == rest;
      LittleEndianRoundTrip(n / 256, width - 1);
    }
  }

  /** Rust's `u64::to_le_bytes`: eight bytes that decode back to `n`. */
  function LE8(n: u64): (r: seq<u8>)
    ensures |r| == 8
    ensures FromLittleEndian(r) == n
  {
    Pow256Eight();
    LittleEndianRoundTrip(n, 8);
    ToLittleEndian(n, 8)
  }

  /** `to_le_bytes` is injective: distinct amounts give distinct bytes. */
  lemma LE8Injective(a: u64, b: u64)
    requires LE8(a) == LE8(b)
    ensures a == b
  {
  }

  /** Rust's `u64::checked_sub`: `None` exactly when the difference would be negative. */
  function CheckedSub(a: u64, b: u64): (r: Option<u64>)
    ensures r.Some? <==> b <= a
    ensures r.Some? ==> r.value + b == a
  {
    if b <= a then Some(a - b) else None
  }

  /** Rust's `u64::checked_add`: `None` exactly when the sum would exceed `u64::MAX`. */
  function CheckedAdd(a: u64, b: u64): (r: Option<u64>)
    ensures r.Some? <==> a + b <= U64_MAX
    ensures r.Some? ==> r.value == a + b
  {
    if a + b <= U64_MAX then Some(a + b) else None
  }
}
