/** Byte strings and the big-endian encoding shared by the hash, the signature and the length field. */
module Bytes {

  type Byte = x: int | 0 <= x < 256

  function Pow256(n: nat): (r: nat)
    ensures r > 0
  {
    if n == 0 then 1 else 256 * Pow256(n - 1)
  }

  /** The n low base-256 digits of x, most significant first. */
  function ToBigEndian(x: nat, n: nat): (bs: seq<Byte>)
    ensures |bs| == n
  {
    if n == 0 then [] else ToBigEndian(x / 256, n - 1) + [x % 256]
  }

  function FromBigEndian(bs: seq<Byte>): (x: nat)
  {
    if |bs| == 0 then 0 else 256 * FromBigEndian(bs[..|bs| - 1]) + bs[|bs| - 1]
  }

  lemma {:induction false} FromBigEndianBound(bs: seq<Byte>)
    ensures FromBigEndian(bs) < Pow256(|bs|)
  {
    if |bs| > 0 {
      FromBigEndianBound(bs[..|bs| - 1]);
    }
  }

  lemma {:induction false} BigEndianRoundTrip(x: nat, n: nat)
    requires x < Pow256(n)
    ensures FromBigEndian(ToBigEndian(x, n)) == x
  {
    if n > 0 {
      BigEndianRoundTrip(x / 256, n - 1);
      assert ToBigEndian(x, n)[..n - 1] == ToBigEndian(x / 256, n - 1);
    }
  }

  lemma {:induction false} BigEndianInverse(bs: seq<Byte>)
    ensures ToBigEndian(FromBigEndian(bs), |bs|) == bs
  {
    if |bs| > 0 {
      BigEndianInverse(bs[..|bs| - 1]);
    }
  }

  lemma BigEndianInjective(a: seq<Byte>, b: seq<Byte>)
    requires |a| == |b| && FromBigEndian(a) == FromBigEndian(b)
    ensures a == b
  {
    BigEndianInverse(a);
    BigEndianInverse(b);
  }

  lemma PowerProduct(h: nat, p: nat)
    ensures h * (256 * p) == 256 * (h * p)
  {
  }

  /** The digits of a number split where the number does. */
  lemma {:induction false} BigEndianSplit(h: nat, l: nat, m: nat, n: nat)
    requires l < Pow256(n)
    ensures ToBigEndian(h * Pow256(n) + l, m + n) == ToBigEndian(h, m) + ToBigEndian(l, n)
  {
    if n > 0 {
      var x := h * Pow256(n) + l;
      PowerProduct(h, Pow256(n - 1));
      assert x / 256 == h * Pow256(n - 1) + l / 256 && x % 256 == l % 256;
      BigEndianSplit(h, l / 256, m, n - 1);
    }
  }
}
