/** Balances in each value pool. */
module ValueBalances {
  import opened Amounts
  import opened Bytes
  import opened Options

  datatype ValueBalance = ValueBalance(transparent: int, sprout: int, sapling: int, orchard: int, deferred: int)

  datatype Pool = Transparent | Sprout | Sapling | Orchard | Deferred

  datatype BalanceError = PoolError(pool: Pool, error: Error) | Unparsable

  type Balanced = Result<ValueBalance, BalanceError>

  const ZERO := ValueBalance(0, 0, 0, 0, 0)

  function Get(b: ValueBalance, p: Pool): int {
    match p
    case Transparent => b.transparent
    case Sprout => b.sprout
    case Sapling => b.sapling
    case Orchard => b.orchard
    case Deferred => b.deferred
  }

  predicate ValidBalance(c: Constraint, b: ValueBalance) {
    && InRange(c, b.transparent) && InRange(c, b.sprout) && InRange(c, b.sapling)
    && InRange(c, b.orchard) && InRange(c, b.deferred)
  }

  function Plus(a: ValueBalance, b: ValueBalance): ValueBalance {
    ValueBalance(a.transparent + b.transparent, a.sprout + b.sprout, a.sapling + b.sapling,
                 a.orchard + b.orchard, a.deferred + b.deferred)
  }

  function Neg(b: ValueBalance): ValueBalance {
    ValueBalance(-b.transparent, -b.sprout, -b.sapling, -b.orchard, -b.deferred)
  }

  /** Checks the pools in order; the error names the first one out of range. */
  function Constrain(c: Constraint, b: ValueBalance): (r: Balanced)
    ensures r.Ok? <==> ValidBalance(c, b)
    ensures r.Ok? ==> r.value == b
    ensures r.Err? ==> r.error.PoolError? && !InRange(c, Get(b, r.error.pool))
                       && r.error.error == OutOfRange(Get(b, r.error.pool))
    ensures r.Err? && !r.error.pool.Transparent? ==> InRange(c, b.transparent)
    ensures r.Err? && (r.error.pool.Sapling? || r.error.pool.Orchard? || r.error.pool.Deferred?) ==>
              InRange(c, b.sprout)
    ensures r.Err? && (r.error.pool.Orchard? || r.error.pool.Deferred?) ==> InRange(c, b.sapling)
    ensures r.Err? && r.error.pool.Deferred? ==> InRange(c, b.orchard)
  {
    if !InRange(c, b.transparent) then Err(PoolError(Transparent, OutOfRange(b.transparent)))
    else if !InRange(c, b.sprout) then Err(PoolError(Sprout, OutOfRange(b.sprout)))
    else if !InRange(c, b.sapling) then Err(PoolError(Sapling, OutOfRange(b.sapling)))
    else if !InRange(c, b.orchard) then Err(PoolError(Orchard, OutOfRange(b.orchard)))
    else if !InRange(c, b.deferred) then Err(PoolError(Deferred, OutOfRange(b.deferred)))
    else Ok(b)
  }

  function AddBalances(c: Constraint, a: ValueBalance, b: ValueBalance): (r: Balanced)
    requires ValidBalance(c, a) && ValidBalance(c, b)
  {
    Constrain(c, Plus(a, b))
  }

  // -------------------------------------------------------------------------
  // Sums.

  ghost function TotalBalance(bs: seq<ValueBalance>): ValueBalance {
    if bs == [] then ZERO else Plus(bs[0], TotalBalance(bs[1..]))
  }

  function SumBalancesFrom(c: Constraint, acc: ValueBalance, bs: seq<ValueBalance>): (r: Balanced)
    requires ValidBalance(c, acc) && forall b :: b in bs ==> ValidBalance(c, b)
    decreases |bs|
  {
    if bs == [] then Ok(acc)
    else match AddBalances(c, acc, bs[0])
      case Ok(sum) => SumBalancesFrom(c, sum, bs[1..])
      case Err(e) => Err(e)
  }

  function SumBalances(c: Constraint, bs: seq<ValueBalance>): (r: Balanced)
    requires forall b :: b in bs ==> ValidBalance(c, b)
  {
    SumBalancesFrom(c, ZERO, bs)
  }

  ghost predicate PartialBalancesValid(c: Constraint, acc: ValueBalance, bs: seq<ValueBalance>) {
    forall k :: 0 <= k <= |bs| ==> ValidBalance(c, Plus(acc, TotalBalance(bs[..k])))
  }

  lemma {:induction false} PartialBalancesStep(c: Constraint, acc: ValueBalance, bs: seq<ValueBalance>)
    requires bs != []
    ensures PartialBalancesValid(c, acc, bs) <==>
            ValidBalance(c, acc) && PartialBalancesValid(c, Plus(acc, bs[0]), bs[1..])
  {
    hide ValidBalance;
    assert Plus(acc, TotalBalance(bs[..0])) == acc;
    forall k | 1 <= k <= |bs|
      ensures Plus(acc, TotalBalance(bs[..k])) == Plus(Plus(acc, bs[0]), TotalBalance(bs[1..][..k - 1]))
    {
      assert bs[..k][1..] == bs[1..][..k - 1];
    }
    if ValidBalance(c, acc) && PartialBalancesValid(c, Plus(acc, bs[0]), bs[1..]) {
      forall k | 0 <= k <= |bs| ensures ValidBalance(c, Plus(acc, TotalBalance(bs[..k]))) {
        if k > 0 {
          assert ValidBalance(c, Plus(Plus(acc, bs[0]), TotalBalance(bs[1..][..k - 1])));
        }
      }
    }
    if PartialBalancesValid(c, acc, bs) {
      forall k | 0 <= k <= |bs[1..]| ensures ValidBalance(c, Plus(Plus(acc, bs[0]), TotalBalance(bs[1..][..k]))) {
        assert ValidBalance(c, Plus(acc, TotalBalance(bs[..k + 1])));
      }
    }
  }

  /** A sum of balances is the exact sum in every pool, and exists exactly if every partial sum is in range
    * in every pool. */
  lemma {:induction false} SumBalancesCorrect(c: Constraint, acc: ValueBalance, bs: seq<ValueBalance>)
    requires ValidBalance(c, acc) && forall b :: b in bs ==> ValidBalance(c, b)
    ensures var r := SumBalancesFrom(c, acc, bs);
            && (r.Ok? <==> PartialBalancesValid(c, acc, bs))
            && (r.Ok? ==> r.value == Plus(acc, TotalBalance(bs)) && ValidBalance(c, r.value))
    decreases |bs|
  {
    if bs == [] {
      assert bs[..0] == [];
    } else {
      hide PartialBalancesValid;
      PartialBalancesStep(c, acc, bs);
      var sum := Plus(acc, bs[0]);
      if ValidBalance(c, sum) {
        SumBalancesCorrect(c, sum, bs[1..]);
      } else {
        NotPartialBalances(c, sum, bs[1..]);
      }
    }
  }

  lemma {:induction false} NotPartialBalances(c: Constraint, acc: ValueBalance, bs: seq<ValueBalance>)
    requires !ValidBalance(c, acc)
    ensures !PartialBalancesValid(c, acc, bs)
  {
    hide ValidBalance;
    assert Plus(acc, TotalBalance(bs[..0])) == acc;
  }

  // -------------------------------------------------------------------------
  // Chain value pools.

  /** What is left in a transaction's value pool, if it is not negative. */
  function RemainingTransactionValue(b: ValueBalance): (r: Checked)
    requires ValidBalance(NegativeAllowed, b)
  {
    match Add(NegativeAllowed, b.transparent, b.sprout)
    case Err(e) => Err(e)
    case Ok(x) =>
      match Add(NegativeAllowed, x, b.sapling)
      case Err(e) => Err(e)
      case Ok(y) =>
        match Add(NegativeAllowed, y, b.orchard)
        case Err(e) => Err(e)
        case Ok(z) => Validate(NonNegative, z)
  }

  /** All value but the deferred pool. */
  function Pooled(b: ValueBalance): int {
    b.transparent + b.sprout + b.sapling + b.orchard
  }

  /** The remaining value is the exact sum over the pools, and never negative. */
  lemma {:induction false} RemainingValueExact(b: ValueBalance)
    requires ValidBalance(NegativeAllowed, b)
    ensures var r := RemainingTransactionValue(b);
            && (r.Ok? <==> InRange(NegativeAllowed, b.transparent + b.sprout)
                           && InRange(NegativeAllowed, b.transparent + b.sprout + b.sapling)
                           && InRange(NonNegative, Pooled(b)))
            && (r.Ok? ==> r.value == Pooled(b))
  {
  }

  /** The new chain value pools after a change. */
  function AddChainValuePoolChange(pools: ValueBalance, change: ValueBalance): (r: Balanced)
    requires ValidBalance(NonNegative, pools) && ValidBalance(NegativeAllowed, change)
  {
    match AddBalances(NegativeAllowed, pools, change)
    case Ok(sum) => Constrain(NonNegative, sum)
    case Err(e) => Err(e)
  }

  /** A change is accepted exactly if no pool would become negative or too large, and is then exact;
    * the opposite change undoes it. */
  lemma {:induction false} PoolChangeExact(pools: ValueBalance, change: ValueBalance)
    requires ValidBalance(NonNegative, pools) && ValidBalance(NegativeAllowed, change)
    ensures var r := AddChainValuePoolChange(pools, change);
            && (r.Ok? <==> ValidBalance(NonNegative, Plus(pools, change)))
            && (r.Ok? ==> r.value == Plus(pools, change))
            && (r.Ok? ==> AddChainValuePoolChange(r.value, Neg(change)) == Ok(pools))
  {
    var r := AddChainValuePoolChange(pools, change);
    if r.Ok? {
      assert Plus(Plus(pools, change), Neg(change)) == pools;
    }
  }

  // -------------------------------------------------------------------------
  // Bytes.

  function BalanceToBytes(b: ValueBalance): (bs: Bytes)
    requires ValidBalance(NonNegative, b)
    ensures |bs| == 40
  {
    ToBytes(b.transparent) + ToBytes(b.sprout) + ToBytes(b.sapling) + ToBytes(b.orchard) + ToBytes(b.deferred)
  }

  function PoolFromBytes(p: Pool, bs: Bytes): (r: Result<int, BalanceError>)
    requires |bs| == 8
  {
    match FromBytes(NonNegative, bs)
    case Ok(value) => Ok(value)
    case Err(e) => Err(PoolError(p, e))
  }

  /** Older databases have no deferred pool and are read from 32 bytes. */
  function BalanceFromBytes(bs: Bytes): (r: Balanced) {
    if |bs| != 32 && |bs| != 40 then Err(Unparsable)
    else match PoolFromBytes(Transparent, bs[0..8])
      case Err(e) => Err(e)
      case Ok(transparent) =>
        match PoolFromBytes(Sprout, bs[8..16])
        case Err(e) => Err(e)
        case Ok(sprout) =>
          match PoolFromBytes(Sapling, bs[16..24])
          case Err(e) => Err(e)
          case Ok(sapling) =>
            match PoolFromBytes(Orchard, bs[24..32])
            case Err(e) => Err(e)
            case Ok(orchard) =>
              match if |bs| == 32 then Ok(0) else PoolFromBytes(Deferred, bs[32..40])
              case Err(e) => Err(e)
              case Ok(deferred) => Ok(ValueBalance(transparent, sprout, sapling, orchard, deferred))
  }

  /** The layout of the pools: eight bytes each, from the transparent to the deferred pool. */
  lemma {:induction false} BalanceLayout(b: ValueBalance, i: nat)
    requires ValidBalance(NonNegative, b) && i < 8
    ensures var bs := BalanceToBytes(b);
            && bs[i] == ByteAt(b.transparent, i) && bs[8 + i] == ByteAt(b.sprout, i)
            && bs[16 + i] == ByteAt(b.sapling, i) && bs[24 + i] == ByteAt(b.orchard, i)
            && bs[32 + i] == ByteAt(b.deferred, i)
  {
    hide ToBytes, ByteAt;
    AmountLayout(b.transparent, i);
    AmountLayout(b.sprout, i);
    AmountLayout(b.sapling, i);
    AmountLayout(b.orchard, i);
    AmountLayout(b.deferred, i);
  }

  /** Pools survive the trip through their 40 bytes; from the first 32 only the deferred pool is lost. */
  lemma {:induction false} BalanceRoundTrip(b: ValueBalance)
    requires ValidBalance(NonNegative, b)
    ensures BalanceFromBytes(BalanceToBytes(b)) == Ok(b)
    ensures BalanceFromBytes(BalanceToBytes(b)[..32]) == Ok(b.(deferred := 0))
  {
    AmountRoundTrip(NonNegative, b.transparent);
    AmountRoundTrip(NonNegative, b.sprout);
    AmountRoundTrip(NonNegative, b.sapling);
    AmountRoundTrip(NonNegative, b.orchard);
    AmountRoundTrip(NonNegative, b.deferred);
    hide ToBytes, FromBytes;
    var bs := BalanceToBytes(b);
    assert bs[0..8] == ToBytes(b.transparent) && bs[8..16] == ToBytes(b.sprout) && bs[16..24] == ToBytes(b.sapling)
        && bs[24..32] == ToBytes(b.orchard) && bs[32..40] == ToBytes(b.deferred);
    var cs := bs[..32];
    assert cs[0..8] == bs[0..8] && cs[8..16] == bs[8..16] && cs[16..24] == bs[16..24] && cs[24..32] == bs[24..32];
  }
}
