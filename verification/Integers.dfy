/** Machine integers and the power-of-two arithmetic shared by the other modules. */
module Integers {

  const TWO_TO_THE_32: int := 0x1_0000_0000

  /** An unsigned 32-bit integer: every arithmetic result is checked to be in range. */
  newtype u32 = x: int | 0 <= x < TWO_TO_THE_32

  function Pow2(k: nat): (p: nat)
    ensures p >= k + 1
  {
    if k == 0 then 1 else 2 * Pow2(k - 1)
  }

  lemma {:induction false} Pow2Doubles(k: nat)
    ensures Pow2(k + 1) == 2 * Pow2(k)
  {
  }

  lemma {:induction false} Pow2Monotonic(j: nat, k: nat)
    requires j <= k
    ensures Pow2(j) <= Pow2(k)
  {
    if j == k {
    } else {
      Pow2Monotonic(j, k - 1);
    }
  }

  /** Powers of two reflect the order of their exponents. */
  lemma Pow2StrictlyMonotonic(j: nat, k: nat)
    requires Pow2(j) < Pow2(k)
    ensures j < k
  {
    if k <= j {
      Pow2Monotonic(k, j);
    }
  }

  lemma Pow2Of32()
    ensures Pow2(31) == 0x8000_0000 && Pow2(32) == TWO_TO_THE_32
  {
    assert Pow2(8) == 256;
    assert Pow2(16) == 65536;
    assert Pow2(24) == 0x100_0000;
  }

  lemma {:induction false} Pow2Injective(j: nat, k: nat)
    ensures Pow2(j) == Pow2(k) <==> j == k
  {
    if j < k {
      Pow2Monotonic(j + 1, k);
    } else if k < j {
      Pow2Monotonic(k + 1, j);
    }
  }

  /** A set of naturals with any element has a greatest one. */
  lemma {:induction false} GreatestExists(s: set<nat>)
    requires s != {}
    ensures exists m :: m in s && forall k :: k in s ==> k <= m
    decreases |s|
  {
    var x :| x in s;
    if s == {x} {
    } else {
      GreatestExists(s - {x});
      var n :| n in s - {x} && forall k :: k in s - {x} ==> k <= n;
      var m := if x <= n then n else x;
      forall k | k in s ensures k <= m {
        assert k == x || k in s - {x};
      }
      assert m in s;
    }
  }

  /** The exponent of the largest power of two that is at most `n`. */
  function Log2(n: nat): (k: nat)
    requires n >= 1
    ensures Pow2(k) <= n < Pow2(k + 1)
  {
    if n == 1 then 0 else 1 + Log2(n / 2)
  }

  /** The bracketing in the contract of `Log2` determines its result. */
  lemma Log2Unique(n: nat, k: nat)
    requires Pow2(k) <= n < Pow2(k + 1)
    ensures n >= 1 && Log2(n) == k
  {
    if Log2(n) < k {
      Pow2Monotonic(Log2(n) + 1, k);
    } else if k < Log2(n) {
      Pow2Monotonic(k + 1, Log2(n));
    }
  }

  /** `1 << k` on a 32-bit word. */
  function ShiftOne(k: u32): (r: u32)
    requires k < 32
    ensures r as int == Pow2(k as nat)
  {
    Pow2Of32();
    Pow2Monotonic(k as nat, 31);
    Pow2(k as nat) as u32
  }

  /** The number of zero bits above the highest set bit of a 32-bit word. */
  function LeadingZeros(x: u32): (z: u32)
    ensures z <= 32
    ensures x > 0 ==> z < 32 && Pow2(31 - z as nat) <= x as int < Pow2(32 - z as nat)
    decreases TWO_TO_THE_32 - x as int
  {
    Pow2Of32();
    if x == 0 then 32
    else if x >= 0x8000_0000 then 0
    else
      LeadingZeros(2 * x) + 1
  }
}
