/** Bytes and fixed-width big-endian integers. */
module Bytes {
  type Byte = b: int | 0 <= b < 256

  type Bytes = seq<Byte>

  function Pow256(n: nat): nat {
    if n == 0 then 1 else 256 * Pow256(n - 1)
  }

  /** The byte of v that counts multiples of 256^k. */
  function Digit(v: nat, k: nat): Byte {
    if k == 0 then v % 256 else Digit(v / 256, k - 1)
  }

  /** The n low-order bytes of v, most significant first. */
  function BigEndian(v: nat, n: nat): Bytes {
    seq(n, i requires 0 <= i < n => Digit(v, n - 1 - i))
  }

  lemma BigEndianStep(v: nat, n: nat)
    requires n > 0
    ensures BigEndian(v, n) == BigEndian(v / 256, n - 1) + [v % 256]
  {
    forall i | 0 <= i < n - 1 ensures BigEndian(v, n)[i] == BigEndian(v / 256, n - 1)[i] {
      assert Digit(v, n - 1 - i) == Digit(v / 256, n - 2 - i);
    }
    assert Digit(v, 0) == v % 256;
    assert BigEndian(v, n)[n - 1] == v % 256;
  }

  function FromBigEndian(s: Bytes): nat {
    if s == [] then 0 else 256 * FromBigEndian(s[..|s| - 1]) + s[|s| - 1]
  }

  lemma {:induction false} BigEndianRoundTrip(v: nat, n: nat)
    requires v < Pow256(n)
    ensures FromBigEndian(BigEndian(v, n)) == v
  {
    if n > 0 {
      BigEndianRoundTrip(v / 256, n - 1);
      BigEndianStep(v, n);
      assert BigEndian(v, n)[..n - 1] == BigEndian(v / 256, n - 1);
    }
  }

  lemma {:induction false} FromBigEndianRoundTrip(s: Bytes)
    ensures FromBigEndian(s) < Pow256(|s|)
    ensures BigEndian(FromBigEndian(s), |s|) == s
  {
    if s != [] {
      var l := |s| - 1;
      FromBigEndianRoundTrip(s[..l]);
      assert FromBigEndian(s) / 256 == FromBigEndian(s[..l]);
      BigEndianStep(FromBigEndian(s), |s|);
      assert s == s[..l] + [s[l]];
    }
  }

  /** The bytes of an ASCII literal. */
  function Ascii(s: string): (b: Bytes)
    ensures |b| == |s|
  {
    seq(|s|, i requires 0 <= i < |s| => if s[i] < 128 as char then s[i] as int else 63)
  }
}
