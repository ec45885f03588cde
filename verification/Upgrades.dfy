/** Network upgrades and their activation heights. */
module Upgrades {
  import opened Options

  /** `Height::MAX` */
  const MAX_HEIGHT: nat := 0x7fff_ffff

  datatype NetworkUpgrade =
    | Genesis | BeforeOverwinter | Overwinter | Sapling | Blossom
    | Heartwood | Canopy | Nu5 | Nu6 | Nu6_1 | Nu7

  /** All upgrades, in the order in which they must activate. */
  const UPGRADES: seq<NetworkUpgrade> :=
    [Genesis, BeforeOverwinter, Overwinter, Sapling, Blossom, Heartwood, Canopy, Nu5, Nu6, Nu6_1, Nu7]

  /** The place of an upgrade in that order. */
  function Rank(u: NetworkUpgrade): nat {
    match u
    case Genesis => 0
    case BeforeOverwinter => 1
    case Overwinter => 2
    case Sapling => 3
    case Blossom => 4
    case Heartwood => 5
    case Canopy => 6
    case Nu5 => 7
    case Nu6 => 8
    case Nu6_1 => 9
    case Nu7 => 10
  }

  const LAST_RANK: nat := 10

  lemma {:induction false} RankIsPlace(u: NetworkUpgrade)
    ensures |UPGRADES| == LAST_RANK + 1 && Rank(u) < |UPGRADES| && UPGRADES[Rank(u)] == u
  {
  }

  datatype Network = Network(activation: map<nat, NetworkUpgrade>)

  /** Height 0 is reserved for Genesis, and upgrades activate in order. */
  ghost predicate ValidNetwork(net: Network) {
    && 0 in net.activation && net.activation[0] == Genesis
    && (forall h :: h in net.activation ==> h <= MAX_HEIGHT)
    && (forall g, h :: g in net.activation && h in net.activation && g < h ==>
          Rank(net.activation[g]) < Rank(net.activation[h]))
  }

  /** The activation height of the upgrade in force at `height`. */
  function CurrentActivation(net: Network, height: nat): (a: nat)
    requires 0 in net.activation
    ensures a in net.activation && a <= height
    ensures forall h :: h in net.activation && h <= height ==> h <= a
  {
    if height in net.activation then height else CurrentActivation(net, height - 1)
  }

  function Current(net: Network, height: nat): NetworkUpgrade
    requires 0 in net.activation
  {
    net.activation[CurrentActivation(net, height)]
  }

  /** The activation height of the upgrade with the given rank,
    * or of the next configured upgrade if that one is not configured. */
  function ActivationHeight(net: Network, rank: nat): (r: Option<nat>)
    requires ValidNetwork(net)
    ensures r.Some? ==> r.value in net.activation && Rank(net.activation[r.value]) >= rank
    decreases LAST_RANK + 1 - rank
  {
    if exists h :: h in net.activation && Rank(net.activation[h]) == rank then
      var h :| h in net.activation && Rank(net.activation[h]) == rank;
      Some(h)
    else if rank < LAST_RANK then ActivationHeight(net, rank + 1)
    else None
  }

  /** The upgrade in force has at least the given rank exactly from the activation height on. */
  lemma {:induction false} ActivationBoundary(net: Network, rank: nat, height: nat)
    requires ValidNetwork(net) && rank <= LAST_RANK
    ensures var a := ActivationHeight(net, rank);
            Rank(Current(net, height)) >= rank <==> a.Some? && height >= a.value
    decreases LAST_RANK - rank
  {
    var a := ActivationHeight(net, rank);
    if exists h :: h in net.activation && Rank(net.activation[h]) == rank {
      ConfiguredBoundary(net, a.value, height);
    } else {
      UnconfiguredRank(net, rank, height);
      if rank < LAST_RANK {
        ActivationBoundary(net, rank + 1, height);
      }
    }
  }

  lemma {:induction false} RankOrder(net: Network, g: nat, h: nat)
    requires ValidNetwork(net) && g in net.activation && h in net.activation
    ensures Rank(net.activation[g]) >= Rank(net.activation[h]) <==> g >= h
  {
  }

  lemma {:induction false} ConfiguredBoundary(net: Network, h: nat, height: nat)
    requires ValidNetwork(net) && h in net.activation
    ensures Rank(Current(net, height)) >= Rank(net.activation[h]) <==> height >= h
  {
    RankOrder(net, CurrentActivation(net, height), h);
    hide Rank, ValidNetwork;
  }

  lemma {:induction false} UnconfiguredRank(net: Network, rank: nat, height: nat)
    requires ValidNetwork(net) && rank <= LAST_RANK
    requires !exists h :: h in net.activation && Rank(net.activation[h]) == rank
    ensures Rank(Current(net, height)) != rank && Rank(Current(net, height)) <= LAST_RANK
  {
    hide ValidNetwork;
  }

  /** Between activation heights the upgrade in force does not change; at one it does. */
  lemma CurrentStep(net: Network, height: nat)
    requires ValidNetwork(net)
    ensures Current(net, height + 1) == Current(net, height) <==> height + 1 !in net.activation
    ensures CurrentActivation(net, height + 1) ==
            if height + 1 in net.activation then height + 1 else CurrentActivation(net, height)
  {
  }
}
