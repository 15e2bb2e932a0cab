/** Bytes, zero padding and block checksums. */
module Bytes {

  /** An `unsigned char`: every store below writes out its reduction modulo 256. */
  type byte = x: int | 0 <= x < 256

  /** Conversion to an unsigned char. */
  function Byte(x: int): byte {
    x % 256
  }

  datatype Option<+T> = None | Some(value: T)

  function Zeros(n: nat): (z: seq<byte>)
    ensures |z| == n
  {
    seq(n, _ => 0)
  }

  lemma ZerosAt(n: nat)
    ensures forall i :: 0 <= i < n ==> Zeros(n)[i] == 0
  {
  }

  lemma ZerosAppend(m: nat, n: nat)
    ensures Zeros(m) + Zeros(n) == Zeros(m + n)
  {
  }

  /** How many bytes of s are not zero: the measure that makes the removing walkers stop. */
  function NonZero(s: seq<byte>): nat {
    if s == [] then 0 else (if s[0] != 0 then 1 else 0) + NonZero(s[1..])
  }

  lemma {:induction false} NonZeroAppend(s: seq<byte>, t: seq<byte>)
    ensures NonZero(s + t) == NonZero(s) + NonZero(t)
  {
    if s == [] {
      assert s + t == t;
    } else {
      NonZeroAppend(s[1..], t);
      assert (s + t)[1..] == s[1..] + t;
    }
  }

  lemma {:induction false} NonZeroZeros(n: nat)
    ensures NonZero(Zeros(n)) == 0
  {
    if n != 0 {
      NonZeroZeros(n - 1);
      assert Zeros(n)[1..] == Zeros(n - 1);
    }
  }

  /** The sum of all bytes of s, before any reduction. */
  function Sum(s: seq<byte>): nat {
    if s == [] then 0 else Sum(s[..|s| - 1]) + s[|s| - 1]
  }

  /** A block is sealed when its 128 bytes sum to 0 modulo 256. */
  predicate Sealed(block: seq<byte>) {
    |block| == 128 && Sum(block) % 256 == 0
  }

  /** The checksum byte for the 127 bytes in front of it. */
  function Checksum(s: seq<byte>): byte {
    (256 - Sum(s) % 256) % 256
  }

  /** block with its last byte replaced by the checksum of the others. */
  function Seal(block: seq<byte>): (r: seq<byte>)
    requires |block| == 128
    ensures |r| == 128 && Sealed(r)
    ensures r[..127] == block[..127]
  {
    var r := block[..127] + [Checksum(block[..127])];
    assert r[..|r| - 1] == block[..127];
    r
  }

  /** Sealing looks only at the first 127 bytes, and there is only one seal for them. */
  lemma SealUnique(s: seq<byte>, t: seq<byte>)
    requires |s| == |t| == 128 && s[..127] == t[..127]
    ensures Seal(s) == Seal(t)
    ensures Sealed(t) ==> Seal(s) == t
  {
    if Sealed(t) {
      assert t == t[..127] + [t[127]];
      assert t[..|t| - 1] == t[..127];
    }
  }

  /** The 128-byte block number i of a buffer. */
  function Block(e: seq<byte>, i: nat): (b: seq<byte>)
    requires 128 * i + 128 <= |e|
    ensures |b| == 128
  {
    e[128 * i..128 * i + 128]
  }

  /** e with the block starting at `base` replaced. */
  function Splice(e: seq<byte>, base: nat, block: seq<byte>): (r: seq<byte>)
    requires |block| == 128 && base + 128 <= |e|
    ensures |r| == |e|
  {
    e[..base] + block + e[base + 128..]
  }

  lemma SliceOfSlice(e: seq<byte>, i: nat, j: nat, k: nat)
    requires i + k <= j <= |e|
    ensures e[i..j][k..] == e[i + k..j] && e[i..j][..k] == e[i..i + k]
  {
  }

  lemma SliceIn(e: seq<byte>, i: nat, j: nat, k: nat, l: nat)
    requires i <= j <= |e| && k <= l <= j - i
    ensures e[i..j][k..l] == e[i + k..i + l]
  {
    var a, b, c := e[i..j], e[i..j][k..l], e[i + k..i + l];
    forall m | 0 <= m < l - k ensures b[m] == c[m] {
      assert b[m] == a[k + m];
    }
  }
}
