/** Bytes and little-endian integers. */
module Bytes {

  type Byte = x: int | 0 <= x < 256

  type Bytes = seq<Byte>

  function Pow256(n: nat): (p: nat)
    ensures p >= 1
  {
    if n == 0 then 1 else 256 * Pow256(n - 1)
  }

  /** The `width` little-endian bytes of `n`. */
  function ToLE(n: nat, width: nat): (bs: Bytes)
    ensures |bs| == width
  {
    if width == 0 then [] else [n % 256] + ToLE(n / 256, width - 1)
  }

  function FromLE(bs: Bytes): (n: nat)
    ensures n < Pow256(|bs|)
  {
    if bs == [] then 0 else bs[0] + 256 * FromLE(bs[1..])
  }

  /** Byte `i` of the encoding of a number: the least significant byte comes first. */
  function ByteAt(n: nat, i: nat): Byte {
    n / Pow256(i) % 256
  }

  lemma {:induction false} DivideTwice(n: nat, d: nat)
    requires d >= 1
    ensures n / (256 * d) == n / 256 / d
  {
    var q, r := n / 256 / d, n / 256 % d;
    assert n == 256 * (q * d + r) + n % 256;
    assert n == q * (256 * d) + (256 * r + n % 256);
    QuotientUnique(n, 256 * d, q, 256 * r + n % 256);
  }

  lemma {:induction false} QuotientUnique(n: nat, d: nat, q: nat, r: nat)
    requires n == q * d + r && r < d
    ensures n / d == q
  {
    var p := n / d;
    assert n == p * d + n % d;
    if p < q {
      Beyond(p, q, d);
    } else if q < p {
      Beyond(q, p, d);
    }
  }

  lemma {:induction false} Beyond(p: nat, q: nat, d: nat)
    requires p < q
    ensures p * d + d <= q * d
  {
    OneMore(q - 1, d);
    if p + 1 < q {
      Beyond(p, q - 1, d);
    }
  }

  lemma {:induction false} OneMore(q: nat, d: nat)
    ensures (q + 1) * d == q * d + d
  {
  }

  lemma {:induction false} LittleEndian(n: nat, width: nat, i: nat)
    requires i < width
    ensures ToLE(n, width)[i] == ByteAt(n, i)
  {
    if i == 0 {
    } else {
      LittleEndian(n / 256, width - 1, i - 1);
      DivideTwice(n, Pow256(i - 1));
    }
  }

  lemma {:induction false} DivideSum(n: nat, m: nat, d: nat)
    requires d >= 1
    ensures (n + m * d) / d == n / d + m
  {
    assert n + m * d == (n / d + m) * d + n % d;
    QuotientUnique(n + m * d, d, n / d + m, n % d);
  }

  lemma {:induction false} FirstBytes(n: nat)
    ensures ByteAt(n, 0) == n % 256 && ByteAt(n, 1) == n / 256 % 256
    ensures ByteAt(n, 2) == n / 0x1_0000 % 256 && ByteAt(n, 3) == n / 0x100_0000 % 256
  {
    Widths();
    assert Pow256(3) == 256 * Pow256(2) && Pow256(1) == 256 * Pow256(0);
  }

  lemma {:induction false} FromToLE(n: nat, width: nat)
    requires n < Pow256(width)
    ensures FromLE(ToLE(n, width)) == n
  {
    if width == 0 {
    } else {
      FromToLE(n / 256, width - 1);
      assert ToLE(n, width)[1..] == ToLE(n / 256, width - 1);
    }
  }

  lemma {:induction false} ToFromLE(bs: Bytes)
    ensures ToLE(FromLE(bs), |bs|) == bs
  {
    if bs == [] {
    } else {
      ToFromLE(bs[1..]);
      assert FromLE(bs) / 256 == FromLE(bs[1..]);
    }
  }

  lemma Widths()
    ensures Pow256(2) == 0x1_0000 && Pow256(4) == 0x1_0000_0000
    ensures Pow256(8) == 0x1_0000_0000_0000_0000
  {
    assert Pow256(2) == 256 * Pow256(1) == 256 * (256 * Pow256(0));
    assert Pow256(4) == 256 * Pow256(3) == 256 * (256 * Pow256(2));
    assert Pow256(6) == 256 * Pow256(5) == 256 * (256 * Pow256(4));
    assert Pow256(8) == 256 * Pow256(7) == 256 * (256 * Pow256(6));
  }

  function Zeros(n: nat): (bs: Bytes)
    ensures |bs| == n
  {
    seq(n, _ => 0)
  }
}
