/** Bounded amounts of zatoshis. */
module Amounts {
  import opened Bytes
  import opened Options

  /** Zatoshis in one ZEC. */
  const COIN: int := 100_000_000
  const MAX_MONEY: int := 21_000_000 * COIN
  const TWO_TO_THE_63: int := 0x8000_0000_0000_0000
  const TWO_TO_THE_64: int := 0x1_0000_0000_0000_0000

  datatype Constraint = NegativeAllowed | NonNegative | NegativeOrZero

  datatype Error =
    | OutOfRange(value: int)
    | DivideByZero(amount: int)
    | SumOverflow(partialSum: int, remaining: nat)

  type Checked = Result<int, Error>

  predicate InRange(c: Constraint, value: int) {
    match c
    case NegativeAllowed => -MAX_MONEY <= value <= MAX_MONEY
    case NonNegative => 0 <= value <= MAX_MONEY
    case NegativeOrZero => -MAX_MONEY <= value <= 0
  }

  /** The values of `Amount<NonNegative>` and `Amount<NegativeAllowed>`. */
  type Zatoshis = x: int | InRange(NonNegative, x)
  type SignedZatoshis = x: int | InRange(NegativeAllowed, x)

  function Validate(c: Constraint, value: int): (r: Checked) {
    if InRange(c, value) then Ok(value) else Err(OutOfRange(value))
  }

  /** The sum of two amounts is always an `i64`, but not always an amount. */
  function Add(c: Constraint, a: int, b: int): (r: Checked)
    requires InRange(c, a) && InRange(c, b)
    ensures -TWO_TO_THE_63 <= a + b < TWO_TO_THE_63
    ensures r.Ok? <==> InRange(c, a + b)
    ensures r.Ok? ==> r.value - a == b
  {
    Validate(c, a + b)
  }

  function Sub(c: Constraint, a: int, b: int): (r: Checked)
    requires InRange(c, a) && InRange(c, b)
    ensures -TWO_TO_THE_63 <= a - b < TWO_TO_THE_63
    ensures r.Ok? <==> InRange(c, a - b)
    ensures r.Ok? ==> r.value + b == a
  {
    Validate(c, a - b)
  }

  /** Division that rounds toward zero. */
  function Quotient(a: int, m: nat): int
    requires m > 0
  {
    if a >= 0 then a / m else -(-a / m)
  }

  function Div(c: Constraint, a: int, m: nat): (r: Checked)
    requires InRange(c, a)
    ensures r.Err? <==> m == 0
    ensures r.Err? ==> r.error == DivideByZero(a)
  {
    if m == 0 then Err(DivideByZero(a)) else Ok(Quotient(a, m))
  }

  lemma {:induction false} MulGrows(q: nat, m: nat)
    requires m > 0
    ensures q <= q * m
  {
  }

  lemma {:induction false} QuotientShrinks(a: nat, m: nat)
    requires m > 0
    ensures 0 <= a / m <= a && (a / m) * m <= a < (a / m + 1) * m
  {
    var q := a / m;
    assert a == q * m + a % m;
    assert (q + 1) * m == q * m + m;
    MulGrows(q, m);
  }

  /** A quotient always stays within the constraint, and multiplying it back is below the amount by
    * less than the divisor. */
  lemma {:induction false} DivStaysInRange(c: Constraint, a: int, m: nat)
    requires InRange(c, a) && m > 0
    ensures Div(c, a, m).Ok? && InRange(c, Div(c, a, m).value)
    ensures var q := Div(c, a, m).value; if a >= 0 then q * m <= a < (q + 1) * m else (q - 1) * m < a <= q * m
  {
    QuotientShrinks(if a >= 0 then a else -a, m);
  }

  // -------------------------------------------------------------------------
  // Sums.

  /** The exact sum. */
  ghost function Total(xs: seq<int>): int {
    if xs == [] then 0 else xs[0] + Total(xs[1..])
  }

  /** Adds up amounts from left to right, stopping at the first partial sum that is no amount. */
  function SumFrom(c: Constraint, acc: int, xs: seq<int>): (r: Checked)
    requires InRange(c, acc) && forall x :: x in xs ==> InRange(c, x)
    ensures r.Ok? ==> InRange(c, r.value)
    decreases |xs|
  {
    if xs == [] then Ok(acc)
    else match Add(c, acc, xs[0])
      case Ok(sum) => SumFrom(c, sum, xs[1..])
      case Err(e) => Err(SumOverflow(acc + xs[0], |xs| - 1))
  }

  function Sum(c: Constraint, xs: seq<int>): (r: Checked)
    requires forall x :: x in xs ==> InRange(c, x)
    ensures r.Ok? ==> InRange(c, r.value)
  {
    SumFrom(c, 0, xs)
  }

  /** Every partial sum is an amount. */
  ghost predicate PartialSumsInRange(c: Constraint, acc: int, xs: seq<int>) {
    forall k :: 0 <= k <= |xs| ==> InRange(c, acc + Total(xs[..k]))
  }

  lemma {:induction false} PartialSumsStep(c: Constraint, acc: int, xs: seq<int>)
    requires xs != []
    ensures PartialSumsInRange(c, acc, xs) <==> InRange(c, acc) && PartialSumsInRange(c, acc + xs[0], xs[1..])
  {
    assert acc + Total(xs[..0]) == acc;
    forall k | 1 <= k <= |xs| ensures Total(xs[..k]) == xs[0] + Total(xs[1..][..k - 1]) {
      assert xs[..k][1..] == xs[1..][..k - 1];
    }
    if InRange(c, acc) && PartialSumsInRange(c, acc + xs[0], xs[1..]) {
      forall k | 0 <= k <= |xs| ensures InRange(c, acc + Total(xs[..k])) {
        if k > 0 {
          assert InRange(c, acc + xs[0] + Total(xs[1..][..k - 1]));
        }
      }
    }
    if PartialSumsInRange(c, acc, xs) {
      forall k | 0 <= k <= |xs[1..]| ensures InRange(c, acc + xs[0] + Total(xs[1..][..k])) {
        assert InRange(c, acc + Total(xs[..k + 1]));
      }
    }
  }

  /** The first partial sum that is no amount, and the number of items after it. */
  ghost predicate OverflowsAt(c: Constraint, acc: int, xs: seq<int>, partialSum: int, remaining: nat) {
    && remaining < |xs|
    && partialSum == acc + Total(xs[..|xs| - remaining]) && !InRange(c, partialSum)
    && PartialSumsInRange(c, acc, xs[..|xs| - remaining - 1])
  }

  /** A sum is the exact sum if every partial sum is an amount. Otherwise the error names the first partial
    * sum that is none, and how many items were left. */
  lemma {:induction false} SumCorrect(c: Constraint, acc: int, xs: seq<int>)
    requires InRange(c, acc) && forall x :: x in xs ==> InRange(c, x)
    ensures var r := SumFrom(c, acc, xs);
            && (r.Ok? <==> PartialSumsInRange(c, acc, xs))
            && (r.Ok? ==> r.value == acc + Total(xs) && InRange(c, r.value))
            && (r.Err? ==> r.error.SumOverflow? && OverflowsAt(c, acc, xs, r.error.partialSum, r.error.remaining))
    decreases |xs|
  {
    if xs == [] {
      assert xs[..0] == [];
    } else {
      hide PartialSumsInRange, OverflowsAt;
      PartialSumsStep(c, acc, xs);
      var sum := acc + xs[0];
      if InRange(c, sum) {
        SumCorrect(c, sum, xs[1..]);
        var r := SumFrom(c, acc, xs);
        if r.Err? {
          OverflowsLater(c, acc, xs, r.error.partialSum, r.error.remaining);
        }
      } else {
        OverflowsFirst(c, acc, xs);
      }
    }
  }

  lemma {:induction false} OverflowsFirst(c: Constraint, acc: int, xs: seq<int>)
    requires xs != [] && InRange(c, acc) && !InRange(c, acc + xs[0])
    ensures OverflowsAt(c, acc, xs, acc + xs[0], |xs| - 1)
    ensures !PartialSumsInRange(c, acc + xs[0], xs[1..])
  {
    assert xs[..1][1..] == [] && xs[..0] == [] && xs[1..][..0] == [];
    assert Total(xs[..1]) == xs[0] + Total([]);
    assert acc + xs[0] + Total(xs[1..][..0]) == acc + xs[0];
  }

  lemma {:induction false} OverflowsLater(c: Constraint, acc: int, xs: seq<int>, partialSum: int, remaining: nat)
    requires xs != [] && InRange(c, acc) && OverflowsAt(c, acc + xs[0], xs[1..], partialSum, remaining)
    ensures OverflowsAt(c, acc, xs, partialSum, remaining)
  {
    var k := |xs| - remaining;
    assert xs[..k][1..] == xs[1..][..k - 1] && xs[..k - 1][1..] == xs[1..][..k - 2];
    PartialSumsStep(c, acc, xs[..k - 1]);
    hide PartialSumsInRange;
  }

  lemma {:induction false} TotalNonNegative(xs: seq<int>)
    requires forall i :: 0 <= i < |xs| ==> xs[i] >= 0
    ensures Total(xs) >= 0
    ensures forall k :: 0 <= k <= |xs| ==> 0 <= Total(xs[..k]) <= Total(xs)
  {
    if xs == [] {
    } else {
      TotalNonNegative(xs[1..]);
      forall k | 0 <= k <= |xs| ensures 0 <= Total(xs[..k]) <= Total(xs) {
        if k > 0 {
          assert xs[..k][1..] == xs[1..][..k - 1];
        }
      }
    }
  }

  /** A sum of non-negative amounts is an amount exactly if the whole sum is. */
  lemma {:induction false} NonNegativeSum(xs: seq<int>)
    requires forall x :: x in xs ==> InRange(NonNegative, x)
    ensures Sum(NonNegative, xs).Ok? <==> Total(xs) <= MAX_MONEY
    ensures Sum(NonNegative, xs).Ok? ==> Sum(NonNegative, xs).value == Total(xs)
  {
    SumCorrect(NonNegative, 0, xs);
    forall i | 0 <= i < |xs| ensures xs[i] >= 0 {
      assert xs[i] in xs;
    }
    TotalNonNegative(xs);
    assert xs[..|xs|] == xs;
    if !PartialSumsInRange(NonNegative, 0, xs) {
      var k :| 0 <= k <= |xs| && !InRange(NonNegative, 0 + Total(xs[..k]));
    }
  }

  // -------------------------------------------------------------------------
  // Bytes.

  /** The eight little-endian bytes of the two's complement of an `i64`. */
  function ToBytes(a: int): (bs: Bytes)
    requires -TWO_TO_THE_63 <= a < TWO_TO_THE_63
  {
    ToLE(if a >= 0 then a else a + TWO_TO_THE_64, 8)
  }

  function FromBytes(c: Constraint, bs: Bytes): (r: Checked)
    requires |bs| == 8
  {
    var n := FromLE(bs);
    Validate(c, if n < TWO_TO_THE_63 then n else n - TWO_TO_THE_64)
  }

  /** An `i64` survives the trip through its bytes exactly if it is an amount. */
  lemma {:induction false} AmountRoundTrip(c: Constraint, a: int)
    requires -TWO_TO_THE_63 <= a < TWO_TO_THE_63
    ensures FromBytes(c, ToBytes(a)) == if InRange(c, a) then Ok(a) else Err(OutOfRange(a))
  {
    Widths();
    FromToLE(if a >= 0 then a else a + TWO_TO_THE_64, 8);
  }

  /** The bytes of an amount: those of its two's complement, the least significant one first. */
  lemma {:induction false} AmountLayout(a: int, i: nat)
    requires -TWO_TO_THE_63 <= a < TWO_TO_THE_63 && i < 8
    ensures |ToBytes(a)| == 8 && ToBytes(a)[i] == ByteAt(if a >= 0 then a else a + TWO_TO_THE_64, i)
  {
    hide ToLE, ByteAt;
    LittleEndian(if a >= 0 then a else a + TWO_TO_THE_64, 8, i);
  }

  /** Different bytes are different amounts. */
  lemma {:induction false} AmountBytesRoundTrip(c: Constraint, bs: Bytes)
    requires |bs| == 8 && FromBytes(c, bs).Ok?
    ensures ToBytes(FromBytes(c, bs).value) == bs
  {
    Widths();
    ToFromLE(bs);
  }
}
