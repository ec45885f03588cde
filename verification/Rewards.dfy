/** The roster of finalizers and the division of block rewards between them. */
module Rewards {

  type Key = nat

  /** A finalizer and its stake. Stakes are `u64`; sums here are exact. */
  datatype Validator = Validator(key: Key, power: nat)

  const POS_TOTAL_REWARD: nat := 6000

  const U64_LIMIT: nat := 0x1_0000_0000_0000_0000

  function Total(vs: seq<Validator>): nat {
    if vs == [] then 0 else Total(vs[..|vs| - 1]) + vs[|vs| - 1].power
  }

  /** The number of members with any stake. */
  function Staked(vs: seq<Validator>): nat {
    if vs == [] then 0 else Staked(vs[..|vs| - 1]) + if vs[|vs| - 1].power > 0 then 1 else 0
  }

  /** The rounded-down share of the reward for a stake. */
  function Share(power: nat, total: nat): nat
    requires total > 0
  {
    power * POS_TOTAL_REWARD / total
  }

  /** The sum of all rounded-down shares. */
  ghost function Shares(vs: seq<Validator>, total: nat): nat
    requires total > 0
  {
    if vs == [] then 0 else Shares(vs[..|vs| - 1], total) + Share(vs[|vs| - 1].power, total)
  }

  /** `m` is the first member with the largest stake. */
  ghost predicate IsMax(vs: seq<Validator>, m: nat) {
    && m < |vs| && vs[m].power > 0
    && (forall i :: 0 <= i < |vs| ==> vs[i].power <= vs[m].power)
    && (forall i :: 0 <= i < m ==> vs[i].power < vs[m].power)
  }

  /** What a member is given: its rounded-down share, or for member `m` all that is left. */
  ghost function Given(vs: seq<Validator>, m: nat, i: nat): nat
    requires m < |vs| && i < |vs| && Total(vs) > 0
    requires Shares(vs, Total(vs)) - Share(vs[m].power, Total(vs)) <= POS_TOTAL_REWARD
  {
    if i == m then POS_TOTAL_REWARD - (Shares(vs, Total(vs)) - Share(vs[m].power, Total(vs)))
    else Share(vs[i].power, Total(vs))
  }

  /** The effect of one reward round. */
  ghost predicate IsRewarded(vs: seq<Validator>, vs': seq<Validator>) {
    && |vs'| == |vs|
    && (Total(vs) == 0 ==> vs' == vs)
    && (Total(vs) > 0 ==> exists m :: RewardedAt(vs, vs', m))
  }

  ghost predicate RewardedAt(vs: seq<Validator>, vs': seq<Validator>, m: nat) {
    && |vs'| == |vs| && Total(vs) > 0 && IsMax(vs, m)
    && Shares(vs, Total(vs)) - Share(vs[m].power, Total(vs)) <= POS_TOTAL_REWARD
    && forall i :: 0 <= i < |vs| ==> vs'[i] == vs[i].(power := vs[i].power + Given(vs, m, i))
  }

  // -------------------------------------------------------------------------
  // Rounding.

  lemma {:induction false} ShareBounds(power: nat, total: nat)
    requires total > 0
    ensures Share(power, total) * total <= power * POS_TOTAL_REWARD < (Share(power, total) + 1) * total
    ensures power == 0 ==> Share(power, total) == 0
  {
  }

  lemma {:induction false} ShareMonotonic(p: nat, q: nat, total: nat)
    requires total > 0 && p <= q
    ensures Share(p, total) <= Share(q, total)
  {
    var a, b := Share(p, total), Share(q, total);
    ShareBounds(p, total);
    ShareBounds(q, total);
    if b + 1 <= a {
      MulMonotonic(b + 1, a, total);
      MulMonotonic(p, q, POS_TOTAL_REWARD);
    }
  }

  lemma {:induction false} MulMonotonic(a: nat, b: nat, c: nat)
    requires a <= b
    ensures a * c <= b * c
  {
  }

  lemma {:induction false} MulDistributes(a: nat, b: nat, c: nat)
    ensures (a + b) * c == a * c + b * c
  {
  }

  lemma {:induction false} MulCancels(a: nat, b: nat, c: nat)
    requires a * c <= b * c && c > 0
    ensures a <= b
  {
  }

  /** The shares add up to at most the reward, and miss it by less than one per staked member. */
  lemma {:induction false} SharesBounds(vs: seq<Validator>, total: nat)
    requires total > 0
    ensures Shares(vs, total) * total <= Total(vs) * POS_TOTAL_REWARD
    ensures Total(vs) * POS_TOTAL_REWARD <= (Shares(vs, total) + Staked(vs)) * total
    ensures Staked(vs) > 0 ==> Total(vs) * POS_TOTAL_REWARD < (Shares(vs, total) + Staked(vs)) * total
    ensures Staked(vs) > 0 <==> Total(vs) > 0
  {
    hide Share;
    if vs == [] {
    } else {
      var init, last := vs[..|vs| - 1], vs[|vs| - 1];
      SharesBounds(init, total);
      ShareBounds(last.power, total);
      var s, k, t := Shares(init, total), Staked(init), Share(last.power, total);
      MulDistributes(s, t, total);
      MulDistributes(s + k, if last.power > 0 then t + 1 else t, total);
    }
  }

  lemma {:induction false} RewardFits(vs: seq<Validator>)
    requires Total(vs) > 0
    ensures Shares(vs, Total(vs)) <= POS_TOTAL_REWARD < Shares(vs, Total(vs)) + Staked(vs)
  {
    var total := Total(vs);
    SharesBounds(vs, total);
    MulCancels(Shares(vs, total), POS_TOTAL_REWARD, total);
    if Shares(vs, total) + Staked(vs) <= POS_TOTAL_REWARD {
      MulMonotonic(Shares(vs, total) + Staked(vs), POS_TOTAL_REWARD, total);
    }
  }

  lemma {:induction false} SharesAt(vs: seq<Validator>, total: nat, m: nat)
    requires total > 0 && m < |vs|
    ensures Share(vs[m].power, total) <= Shares(vs, total)
  {
    if m == |vs| - 1 {
    } else {
      SharesAt(vs[..|vs| - 1], total, m);
    }
  }

  lemma {:induction false} PowerAtMostTotal(vs: seq<Validator>, i: nat)
    requires i < |vs|
    ensures vs[i].power <= Total(vs)
  {
    if i == |vs| - 1 {
    } else {
      PowerAtMostTotal(vs[..|vs| - 1], i);
    }
  }

  // -------------------------------------------------------------------------
  // What a reward round guarantees.

  /** The remainder given to the largest staker is at least its share, and the bonus is smaller than
    * the number of staked members. */
  lemma {:induction false} LargestStakerBonus(vs: seq<Validator>, vs': seq<Validator>, m: nat)
    requires RewardedAt(vs, vs', m)
    ensures var share := Share(vs[m].power, Total(vs));
            share <= Given(vs, m, m) < share + Staked(vs)
  {
    RewardFits(vs);
    SharesAt(vs, Total(vs), m);
  }

  /** Sum of what the first `n` members are given. */
  ghost function GivenSum(vs: seq<Validator>, m: nat, n: nat): nat
    requires m < |vs| && n <= |vs| && Total(vs) > 0
    requires Shares(vs, Total(vs)) - Share(vs[m].power, Total(vs)) <= POS_TOTAL_REWARD
  {
    if n == 0 then 0 else GivenSum(vs, m, n - 1) + Given(vs, m, n - 1)
  }

  lemma {:induction false} GivenSumIs(vs: seq<Validator>, m: nat, n: nat)
    requires m < |vs| && n <= |vs| && Total(vs) > 0
    requires Shares(vs, Total(vs)) - Share(vs[m].power, Total(vs)) <= POS_TOTAL_REWARD
    ensures GivenSum(vs, m, n) ==
            Shares(vs[..n], Total(vs)) + if m < n then Given(vs, m, m) - Share(vs[m].power, Total(vs)) else 0
  {
    if n == 0 {
    } else {
      GivenSumIs(vs, m, n - 1);
      assert vs[..n][..n - 1] == vs[..n - 1];
    }
  }

  lemma {:induction false} RewardedPrefixTotal(vs: seq<Validator>, vs': seq<Validator>, m: nat, n: nat)
    requires RewardedAt(vs, vs', m) && n <= |vs|
    ensures Total(vs'[..n]) == Total(vs[..n]) + GivenSum(vs, m, n)
  {
    hide Given, Shares, Share, IsMax;
    if n == 0 {
    } else {
      RewardedPrefixTotal(vs, vs', m, n - 1);
      assert vs[..n][..n - 1] == vs[..n - 1] && vs'[..n][..n - 1] == vs'[..n - 1];
    }
  }

  /** A reward round pays out exactly the whole reward, or nothing if nobody has any stake. */
  lemma {:induction false} RewardConserved(vs: seq<Validator>, vs': seq<Validator>)
    requires IsRewarded(vs, vs')
    ensures Total(vs') == Total(vs) + if Total(vs) > 0 then 6000 else 0
  {
    if Total(vs) > 0 {
      var m :| RewardedAt(vs, vs', m);
      RewardedPrefixTotal(vs, vs', m, |vs|);
      GivenSumIs(vs, m, |vs|);
      assert vs[..|vs|] == vs && vs'[..|vs|] == vs';
    }
  }

  /** A reward round changes no key, gives nothing to members without stake, never lowers a stake,
    * and keeps every strict difference in stake. */
  lemma {:induction false} RewardFair(vs: seq<Validator>, vs': seq<Validator>, i: nat, j: nat)
    requires IsRewarded(vs, vs') && i < |vs| && j < |vs|
    ensures vs'[i].key == vs[i].key && vs[i].power <= vs'[i].power
    ensures vs[i].power == 0 ==> vs'[i].power == 0
    ensures vs[i].power < vs[j].power ==> vs'[i].power < vs'[j].power
  {
    if Total(vs) > 0 {
      var m :| RewardedAt(vs, vs', m);
      LargestStakerBonus(vs, vs', m);
      ShareBounds(vs[i].power, Total(vs));
      if vs[i].power < vs[j].power {
        ShareMonotonic(vs[i].power, vs[j].power, Total(vs));
        assert i != m;
      }
    }
  }

  /** No stake in a reward round is above the new total and no share above the reward, so nothing
    * overflows a `u64` as long as the new total does not. */
  lemma {:induction false} RewardRoundFits(vs: seq<Validator>, vs': seq<Validator>, i: nat)
    requires IsRewarded(vs, vs') && i < |vs|
    ensures vs[i].power <= vs'[i].power <= Total(vs') && Total(vs) <= Total(vs')
    ensures Total(vs) > 0 ==> Share(vs[i].power, Total(vs)) <= POS_TOTAL_REWARD
  {
    RewardConserved(vs, vs');
    RewardFair(vs, vs', i, i);
    PowerAtMostTotal(vs', i);
    if Total(vs) > 0 {
      RewardFits(vs);
      SharesAt(vs, Total(vs), i);
    }
  }

  /** The outcome of a reward round is determined. */
  lemma {:induction false} RewardUnique(vs: seq<Validator>, a: seq<Validator>, b: seq<Validator>)
    requires IsRewarded(vs, a) && IsRewarded(vs, b)
    ensures a == b
  {
    if Total(vs) > 0 {
      var m :| RewardedAt(vs, a, m);
      var n :| RewardedAt(vs, b, n);
      assert m == n;
    }
  }

  lemma {:induction false} MaxExists(vs: seq<Validator>)
    requires Total(vs) > 0
    ensures exists m :: IsMax(vs, m)
  {
    assert vs != [];
    var n: nat := |vs| - 1;
    var init, last := vs[..n], vs[n];
    if Total(init) > 0 {
      MaxExists(init);
      var m: nat :| IsMax(init, m);
      if vs[m].power < last.power {
        assert IsMax(vs, n);
      } else {
        assert IsMax(vs, m);
      }
    } else {
      forall i | 0 <= i < n ensures vs[i].power == 0 {
        PowerAtMostTotal(init, i);
      }
      assert IsMax(vs, n);
    }
  }

  /** The roster after one reward round. */
  ghost function Rewarded(vs: seq<Validator>): (vs': seq<Validator>)
    ensures IsRewarded(vs, vs')
  {
    if Total(vs) == 0 then vs
    else
      MaxExists(vs);
      RewardFits(vs);
      var m :| IsMax(vs, m);
      var vs' := seq(|vs|, i requires 0 <= i < |vs| => vs[i].(power := vs[i].power + Given(vs, m, i)));
      assert RewardedAt(vs, vs', m);
      vs'
  }

  /** Some member has the largest stake and is the first to have it. Everyone else is given the rounded-down share of
    * the reward, and it is given the rest. */
  ghost predicate DividedBetween(vs: seq<Validator>, vs': seq<Validator>, m: nat) {
    && m < |vs| == |vs'| && Total(vs) > 0
    && (forall i :: 0 <= i < |vs| ==> vs[i].power <= vs[m].power && (i < m ==> vs[i].power < vs[m].power))
    && (forall i :: 0 <= i < |vs| && i != m ==> vs'[i].power == vs[i].power + vs[i].power * 6000 / Total(vs))
    && (forall i :: 0 <= i < |vs| ==> vs'[i].key == vs[i].key)
    && Total(vs') == Total(vs) + 6000
  }

  lemma {:induction false} RewardDivided(vs: seq<Validator>)
    ensures if Total(vs) == 0 then Rewarded(vs) == vs else exists m :: DividedBetween(vs, Rewarded(vs), m)
  {
    var vs' := Rewarded(vs);
    if Total(vs) > 0 {
      RewardConserved(vs, vs');
      var m :| RewardedAt(vs, vs', m);
      assert DividedBetween(vs, vs', m) by {
        hide Total, Shares;
      }
    }
  }

  // -------------------------------------------------------------------------
  // The reward round itself.

  lemma {:induction false} PrefixStep(vs: seq<Validator>, total: nat, i: nat)
    requires i < |vs| && total > 0
    ensures Total(vs[..i + 1]) == Total(vs[..i]) + vs[i].power
    ensures Shares(vs[..i + 1], total) == Shares(vs[..i], total) + Share(vs[i].power, total)
  {
    assert vs[..i + 1][..i] == vs[..i];
  }

  /** The total stake, and the first member with the largest stake. */
  method TotalAndMax(vs: seq<Validator>) returns (total: nat, max: int)
    ensures total == Total(vs)
    ensures if total == 0 then max == -1 && (forall i :: 0 <= i < |vs| ==> vs[i].power == 0)
            else max >= 0 && IsMax(vs, max)
  {
    total, max := 0, -1;
    for i := 0 to |vs|
      invariant total == Total(vs[..i])
      invariant max == -1 ==> total == 0 && forall j :: 0 <= j < i ==> vs[j].power == 0
      invariant max != -1 ==> 0 <= max < i && 0 < vs[max].power <= total
      invariant max != -1 ==> forall j :: 0 <= j < i ==> vs[j].power <= vs[max].power
      invariant max != -1 ==> forall j :: 0 <= j < max ==> vs[j].power < vs[max].power
    {
      PrefixStep(vs, 1, i);
      var finalizer := vs[i];
      if finalizer.power == 0 {
        continue;
      }
      if max == -1 || vs[max].power < finalizer.power {
        max := i;
      }
      total := total + finalizer.power;
    }
    assert vs[..|vs|] == vs;
  }

  /** Divides one reward between the finalizers in proportion to their stake; the largest staker gets
    * what rounding leaves over. Neither the subtraction nor the remainder check can fail. `fits` tells whether
    * every addition stays within a `u64`: exactly if the total before and each stake after the round do. */
  method DivideReward(finalizers: seq<Validator>) returns (rewarded: seq<Validator>, fits: bool)
    ensures rewarded == Rewarded(finalizers)
    ensures if Total(finalizers) == 0 then rewarded == finalizers
            else exists m :: DividedBetween(finalizers, rewarded, m)
    ensures fits <==> Total(finalizers) < U64_LIMIT && forall i :: 0 <= i < |rewarded| ==> rewarded[i].power < U64_LIMIT
  {
    var total, max := TotalAndMax(finalizers);
    var sumReward;
    rewarded, fits, sumReward := GiveShares(finalizers, total, max);
    if max != -1 {
      var finalizer := rewarded[max];
      var reward := finalizer.power * POS_TOTAL_REWARD / total;
      RewardFits(finalizers);
      SharesAt(finalizers, total, max);
      assert sumReward <= POS_TOTAL_REWARD;
      var remReward := POS_TOTAL_REWARD - sumReward;
      assert reward <= remReward;
      rewarded := rewarded[max := finalizer.(power := finalizer.power + remReward)];
      fits := fits && rewarded[max].power < U64_LIMIT;
      assert RewardedAt(finalizers, rewarded, max);
    }
    RewardUnique(finalizers, rewarded, Rewarded(finalizers));
    RewardDivided(finalizers);
  }

  /** Gives every finalizer but the largest staker its rounded-down share. */
  method GiveShares(finalizers: seq<Validator>, total: nat, max: int)
    returns (rewarded: seq<Validator>, fits: bool, sumReward: nat)
    requires total == Total(finalizers) && (total > 0 ==> 0 <= max < |finalizers|)
    requires total == 0 ==> forall i :: 0 <= i < |finalizers| ==> finalizers[i].power == 0
    ensures |rewarded| == |finalizers|
    ensures total == 0 ==> rewarded == finalizers
    ensures total > 0 ==> rewarded[max] == finalizers[max]
    ensures total > 0 ==> forall i :: 0 <= i < |finalizers| && i != max ==>
              rewarded[i] == finalizers[i].(power := finalizers[i].power + Share(finalizers[i].power, total))
    ensures total > 0 ==> sumReward == Shares(finalizers, total) - Share(finalizers[max].power, total)
    ensures fits <==> total < U64_LIMIT && forall i :: 0 <= i < |rewarded| ==> rewarded[i].power < U64_LIMIT
  {
    rewarded, fits, sumReward := finalizers, total < U64_LIMIT, 0;
    forall i | 0 <= i < |finalizers| ensures finalizers[i].power <= total {
      PowerAtMostTotal(finalizers, i);
    }
    hide Share;
    for i := 0 to |finalizers|
      invariant |rewarded| == |finalizers|
      invariant total == 0 ==> rewarded == finalizers && sumReward == 0
      invariant total > 0 ==> forall j :: i <= j < |finalizers| ==> rewarded[j] == finalizers[j]
      invariant total > 0 ==> forall j :: 0 <= j < i && j != max ==>
        rewarded[j] == finalizers[j].(power := finalizers[j].power + Share(finalizers[j].power, total))
      invariant total > 0 ==> rewarded[max] == finalizers[max]
      invariant fits <==> total < U64_LIMIT && forall j :: 0 <= j < |rewarded| ==> rewarded[j].power < U64_LIMIT
      invariant total > 0 ==>
        sumReward == Shares(finalizers[..i], total) - if max < i then Share(finalizers[max].power, total) else 0
    {
      if total > 0 {
        PrefixStep(finalizers, total, i);
        ShareBounds(finalizers[i].power, total);
        ShareIs(finalizers[i].power, total);
      }
      var finalizer := rewarded[i];
      if finalizer.power == 0 || i == max {
        continue;
      }
      var reward := finalizer.power * POS_TOTAL_REWARD / total;
      sumReward := sumReward + reward;
      rewarded := rewarded[i := finalizer.(power := finalizer.power + reward)];
      fits := fits && rewarded[i].power < U64_LIMIT;
    }
    assert finalizers[..|finalizers|] == finalizers;
  }

  lemma {:induction false} ShareIs(power: nat, total: nat)
    requires total > 0
    ensures Share(power, total) == power * POS_TOTAL_REWARD / total
  {
  }
}
