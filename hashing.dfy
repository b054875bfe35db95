/**
 * The bucket hash of a shingle: the first four bytes of its SHA-1 digest,
 * read as an unsigned little-endian 32-bit integer (`struct.unpack("<I", ...)`).
 */
module Hashing {

  type Byte = b: int | 0 <= b < 256

  /** Length in bytes of a SHA-1 digest. */
  const DigestLength := 20

  type Digest = d: seq<Byte> | |d| == DigestLength witness seq(20, _ => 0)

  /** SHA-1 of the UTF-8 encoding of a shingle; the digest algorithm itself is not modelled. */
  type Sha1 = string -> Digest

  function Pow256(n: nat): (p: nat)
    ensures p >= 1
  {
    if n == 0 then 1 else 256 * Pow256(n - 1)
  }

  const Two32: nat := 0x1_0000_0000

  /** Unsigned little-endian value of a byte string: the first byte is the least significant. */
  function UnpackLE(b: seq<Byte>): (v: nat)
    ensures v < Pow256(|b|)
  {
    if b == [] then 0 else b[0] + 256 * UnpackLE(b[1..])
  }

  /** The `n` least significant bytes of `v`, least significant first. */
  function PackLE(v: nat, n: nat): (b: seq<Byte>)
    ensures |b| == n
  {
    if n == 0 then [] else [v % 256] + PackLE(v / 256, n - 1)
  }

  lemma {:induction false} UnpackPack(v: nat, n: nat)
    requires v < Pow256(n)
    ensures UnpackLE(PackLE(v, n)) == v
  {
    if n > 0 {
      UnpackPack(v / 256, n - 1);
      assert PackLE(v, n)[1..] == PackLE(v / 256, n - 1);
    }
  }

  lemma {:induction false} PackUnpack(b: seq<Byte>)
    ensures PackLE(UnpackLE(b), |b|) == b
  {
    if b != [] {
      var rest := UnpackLE(b[1..]);
      assert (b[0] + 256 * rest) % 256 == b[0];
      assert (b[0] + 256 * rest) / 256 == rest;
      PackUnpack(b[1..]);
    }
  }

  /** `struct.unpack("<I", four)[0]`. */
  function UnpackUint32(four: seq<Byte>): (v: nat)
    requires |four| == 4
    ensures v < Two32
    ensures PackLE(v, 4) == four
  {
    PackUnpack(four);
    UnpackLE(four)
  }

  /** `_get_hash`: the first four digest bytes as an unsigned little-endian 32-bit integer. */
  function GetHash(sha1: Sha1, shingle: string): (h: nat)
    ensures h < Two32
    ensures PackLE(h, 4) == sha1(shingle)[..4]
  {
    UnpackUint32(sha1(shingle)[..4])
  }
}
