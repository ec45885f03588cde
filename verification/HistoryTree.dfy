/** The history tree: a cache of the peaks of a Merkle mountain range, one tree per network upgrade. */
module HistoryTree {
  import opened Integers
  import opened MountainRange
  import opened Options
  import opened Upgrades

  // -------------------------------------------------------------------------
  // The tree rebuilt from a cache of peaks.

  /** The runtime view of a tree: its array length, its peaks in array order and its root. */
  datatype CachedTree = CachedTree(length: nat, range: seq<Node>, root: Node)

  datatype Inner = PreOrchard(tree: CachedTree) | OrchardOnward(tree: CachedTree)

  function MaxKey(m: map<nat, Node>): (k: nat)
    requires m != map[]
    ensures k in m && forall j :: j in m ==> j <= k
  {
    GreatestExists(m.Keys);
    var k :| k in m && forall j :: j in m ==> j <= k;
    k
  }

  /** The values of an ordered map in key order. */
  function InKeyOrder(m: map<nat, Node>): seq<Node>
    decreases |m|
  {
    if m == map[] then []
    else
      var k := MaxKey(m);
      assert (m - {k}).Keys == m.Keys - {k};
      InKeyOrder(m - {k}) + [m[k]]
  }

  function NewFromCache(length: nat, peaks: map<nat, Node>): CachedTree
    requires peaks != map[]
  {
    CachedTree(length, InKeyOrder(peaks), Bag(InKeyOrder(peaks)))
  }

  /** Key order of the cached peaks is array order, so the range is read back unchanged. */
  lemma {:induction false} PeakMapInKeyOrder(ms: seq<Node>)
    ensures InKeyOrder(PeakMap(ms)) == ms
    ensures ms != [] ==> PeakMap(ms) != map[]
  {
    hide InKeyOrder, PeakMap;
    PrefixInKeyOrder(ms, |ms|);
    assert ms[..|ms|] == ms;
  }

  lemma {:induction false} PrefixInKeyOrder(ms: seq<Node>, n: nat)
    requires n <= |ms|
    ensures InKeyOrder(PeakMap(ms[..n])) == ms[..n]
    ensures n > 0 ==> PeakMap(ms[..n]) != map[]
  {
    hide InKeyOrder, PeakMap;
    if n == 0 {
      assert ms[..n] == [];
      NoPeaks();
    } else {
      PrefixInKeyOrder(ms, n - 1);
      AppendPeak(ms[..n - 1], ms[n - 1]);
      assert ms[..n] == ms[..n - 1] + [ms[n - 1]];
    }
  }

  lemma {:induction false} NoPeaks()
    ensures InKeyOrder(PeakMap([])) == []
  {
  }

  /** A peak appended to a range comes after all others. */
  lemma {:induction false} AppendPeak(ms: seq<Node>, n: Node)
    requires InKeyOrder(PeakMap(ms)) == ms
    ensures InKeyOrder(PeakMap(ms + [n])) == ms + [n] && PeakMap(ms + [n]) != map[]
  {
    hide InKeyOrder, PeakMap, Flat;
    PeakMapSnoc(ms, n);
    InKeyOrderSnoc(PeakMap(ms), |Flat(ms + [n])| - 1, n);
  }

  lemma {:induction false} PeakMapSnoc(ms: seq<Node>, n: Node)
    ensures var k := |Flat(ms + [n])| - 1;
            && k >= 0 && PeakMap(ms + [n]) == PeakMap(ms)[k := n] && PeakMap(ms + [n]) != map[]
            && forall j :: j in PeakMap(ms) ==> j < k
  {
    PeakMapIsRestriction(ms);
    FlatSnoc(ms, n);
    assert (ms + [n])[..|ms|] == ms;
    assert |Flat(ms + [n])| - 1 in PeakMap(ms + [n]);
  }

  lemma {:induction false} InKeyOrderSnoc(m: map<nat, Node>, k: nat, n: Node)
    requires forall j :: j in m ==> j < k
    ensures InKeyOrder(m[k := n]) == InKeyOrder(m) + [n]
  {
    var m' := m[k := n];
    assert k in m' && MaxKey(m') == k;
    assert m' - {k} == m;
  }

  // -------------------------------------------------------------------------
  // Peak positions from the array length alone.

  /** The array length of the first `j` perfect trees with the given altitudes. */
  ghost function Base(alts: seq<nat>, j: nat): nat
    requires j <= |alts|
  {
    if j == 0 then 0 else Base(alts, j - 1) + Pow2(alts[j - 1] + 1) - 1
  }

  /** The array positions of the roots of the first `j` trees. */
  ghost function PeakEnds(alts: seq<nat>, j: nat): set<int>
    requires j <= |alts|
  {
    if j == 0 then {} else PeakEnds(alts, j - 1) + {Base(alts, j) - 1}
  }

  ghost predicate Descending(alts: seq<nat>) {
    forall i, j :: 0 <= i < j < |alts| ==> alts[i] > alts[j]
  }

  lemma {:induction false} RangePositions(ms: seq<Node>, alts: seq<nat>, j: nat)
    requires IsRange(ms, alts) && j <= |ms|
    ensures |Flat(ms[..j])| == Base(alts, j)
    ensures PeakMap(ms[..j]).Keys == PeakEnds(alts, j)
  {
    if j == 0 {
    } else {
      RangePositions(ms, alts, j - 1);
      assert ms[..j][..j - 1] == ms[..j - 1];
      PerfectSize(ms[j - 1], alts[j - 1]);
    }
  }

  /** Trees of altitudes below `alt` take up fewer positions than one tree of altitude `alt`. */
  lemma {:induction false} BaseBelow(alts: seq<nat>, j: nat, alt: nat)
    requires Descending(alts) && j <= |alts|
    requires j < |alts| ==> alts[j] < alt
    ensures Base(alts, j) <= Base(alts, |alts|) <= Base(alts, j) + Pow2(alt + 1) - 2
    decreases |alts| - j
  {
    if j == |alts| {
    } else {
      BaseBelow(alts, j + 1, alts[j]);
      Pow2Monotonic(alts[j] + 1, alt);
    }
  }

  /** The state of the walk over the peaks: the first `j` are collected, and `peakPos` is where
    * a tree of altitude `alt` would have its root if one came next. */
  ghost predicate Walk(alts: seq<nat>, j: nat, alt: int, peakPos: int, positions: set<int>) {
    && j <= |alts| && 0 <= alt <= 30
    && (j < |alts| ==> alts[j] <= alt)
    && peakPos == Base(alts, j) + Pow2(alt + 1) - 2
    && positions == PeakEnds(alts, j)
    && Base(alts, j) + Pow2(alt + 1) <= TWO_TO_THE_32
    && (j < |alts| && alts[j] == alt ==> Base(alts, j) + Pow2(alt + 2) <= TWO_TO_THE_32)
  }

  lemma {:induction false} TopAltitude(size: nat, a: nat, alt: nat)
    requires Pow2(a + 1) - 1 <= size < Pow2(a + 2) - 1
    requires Pow2(alt + 1) <= size + 1 < Pow2(alt + 2)
    requires size < TWO_TO_THE_32 - 1
    ensures a == alt <= 30 && Pow2(alt + 1) < Pow2(alt + 2) <= TWO_TO_THE_32
  {
    hide Pow2, Log2;
    Log2Unique(size + 1, a + 1);
    Log2Unique(size + 1, alt + 1);
    Pow2Of32();
    Pow2StrictlyMonotonic(alt + 1, 32);
    Pow2Monotonic(alt + 2, 32);
    Pow2Doubles(alt + 1);
  }

  /** The altitude computed from the highest set bit is that of the highest peak. */
  lemma {:induction false} WalkStart(alts: seq<nat>, alt: int, size: nat)
    requires Descending(alts) && alts != [] && 0 <= alt && size == Base(alts, |alts|)
    requires Pow2(alt + 1) <= size + 1 < Pow2(alt + 2)
    requires size < TWO_TO_THE_32 - 1
    ensures Walk(alts, 0, alt, Pow2(alt + 1) - 2, {}) && alts[0] == alt
    ensures 0 <= Pow2(alt + 1) - 2 < size
  {
    BaseBelow(alts, 1, alts[0]);
    assert Base(alts, 1) == Base(alts, 0) + Pow2(alts[0] + 1) - 1;
    TopAltitude(size, alts[0], alt);
  }

  /** A candidate position lies inside the array exactly if a tree of that altitude is there. */
  lemma {:induction false} WalkInside(alts: seq<nat>, j: nat, alt: int, peakPos: int, positions: set<int>)
    requires Descending(alts) && Walk(alts, j, alt, peakPos, positions)
    ensures 0 <= peakPos < Base(alts, |alts|) <==> j < |alts| && alts[j] == alt
  {
    if j < |alts| && alts[j] == alt {
      BaseBelow(alts, j + 1, alt);
      assert Base(alts, j + 1) == Base(alts, j) + Pow2(alts[j] + 1) - 1;
    } else {
      BaseBelow(alts, j, alt);
    }
  }

  /** With no tree of this altitude, the walk drops to the left child position. */
  lemma {:induction false} WalkDrop(alts: seq<nat>, j: nat, alt: int, peakPos: int, positions: set<int>)
    requires Descending(alts) && Walk(alts, j, alt, peakPos, positions) && alt > 0
    requires peakPos >= Base(alts, |alts|)
    ensures Walk(alts, j, alt - 1, peakPos - Pow2(alt), positions)
    ensures 0 <= peakPos - Pow2(alt)
  {
    WalkInside(alts, j, alt, peakPos, positions);
  }

  /** A tree that is there is collected, and the walk moves on to its right sibling position. */
  lemma {:induction false} WalkCollect(alts: seq<nat>, j: nat, alt: int, peakPos: int, positions: set<int>)
    requires Descending(alts) && Walk(alts, j, alt, peakPos, positions) && 0 <= peakPos < Base(alts, |alts|)
    ensures alt <= 30 && peakPos + Pow2(alt + 1) < TWO_TO_THE_32
    ensures Walk(alts, j + 1, alt, peakPos + Pow2(alt + 1) - 1, positions + {peakPos})
    ensures j < |alts| && peakPos + Pow2(alt + 1) - 1 >= Base(alts, |alts|)
  {
    WalkInside(alts, j, alt, peakPos, positions);
    WalkInside(alts, j + 1, alt, peakPos + Pow2(alt + 1) - 1, positions + {peakPos});
  }

  /** At the bottom with nothing left to take, every peak has been collected. */
  lemma {:induction false} WalkDone(alts: seq<nat>, j: nat, alt: int, peakPos: int, positions: set<int>)
    requires Descending(alts) && Walk(alts, j, alt, peakPos, positions)
    requires alt == 0 && peakPos >= Base(alts, |alts|)
    ensures positions == PeakEnds(alts, |alts|)
  {
    WalkInside(alts, j, alt, peakPos, positions);
  }

  /** One below the position of the highest set bit of `size + 1`. */
  function HighestAltitude(size: u32): (alt: u32)
    requires 1 <= size && size as int < TWO_TO_THE_32 - 1
    ensures alt <= 30 && Pow2(alt as nat + 1) <= size as int + 1 < Pow2(alt as nat + 2)
  {
    assert Pow2(1) == 2;
    assert Pow2(0) == 1;
    (32 - LeadingZeros(size + 1) - 1) - 1
  }

  /** The walk over the peaks of any range, knowing only its array length.
    * Every operation is on 32-bit words. */
  method WalkPeaks(size: u32, ghost alts: seq<nat>) returns (positions: set<int>)
    requires Descending(alts) && alts != [] && size as int == Base(alts, |alts|)
    requires 1 <= size as int < TWO_TO_THE_32 - 1
    ensures positions == PeakEnds(alts, |alts|)
  {
    hide Walk, Base, PeakEnds, Descending, Pow2;
    var alt := HighestAltitude(size);
    WalkStart(alts, alt as int, size as nat);
    var peakPos := ShiftOne(alt + 1) - 2;
    positions := {};
    ghost var j: nat := 0;
    while true
      invariant Walk(alts, j, alt as int, peakPos as int, positions)
      invariant alt <= 30 && j <= |alts| && (alt == 0 ==> peakPos < size)
      decreases alt, |alts| - j
    {
      if peakPos >= size {
        WalkDrop(alts, j, alt as int, peakPos as int, positions);
        peakPos := peakPos - ShiftOne(alt);
        alt := alt - 1;
      }
      if peakPos < size {
        WalkCollect(alts, j, alt as int, peakPos as int, positions);
        positions := positions + {peakPos as int};
        peakPos := peakPos + ShiftOne(alt + 1) - 1;
        j := j + 1;
      }
      if alt == 0 {
        break;
      }
    }
    WalkDone(alts, j, alt as int, peakPos as int, positions);
  }

  /** The array length of a range in closed form. */
  lemma {:induction false} SizeFormula(ls: seq<LeafData>)
    ensures |Flat(Mountains(ls))| == 2 * |ls| - PopCount(|ls|)
  {
    var _ := MountainsAreRange(ls);
    ArraySize(Mountains(ls));
    PeakCount(ls);
  }

  lemma {:induction false} PopCountStep(n: nat)
    ensures PopCount(n + 1) <= PopCount(n) + 1
  {
    if n % 2 == 1 {
      PopCountStep(n / 2);
      assert (n + 1) / 2 == n / 2 + 1;
    } else {
      assert (n + 1) / 2 == n / 2;
    }
  }

  lemma {:induction false} PopCountPow2(k: nat)
    ensures PopCount(Pow2(k)) == 1
  {
    if k == 0 {
    } else {
      PopCountPow2(k - 1);
      assert Pow2(k) / 2 == Pow2(k - 1);
    }
  }

  lemma {:induction false} ArraySizeIncreases(m: nat, n: nat)
    requires m <= n
    ensures 2 * m - PopCount(m) <= 2 * n - PopCount(n)
    decreases n - m
  {
    if m == n {
    } else {
      PopCountStep(m);
      ArraySizeIncreases(m + 1, n);
    }
  }

  /** `size + 1` is a 32-bit word exactly for fewer than `2^31` leaves. */
  lemma {:induction false} WordSizeExactly(n: nat)
    requires n >= 1
    ensures 2 * n - PopCount(n) < TWO_TO_THE_32 - 1 <==> n < 0x8000_0000
  {
    if n < 0x8000_0000 {
      PopCountPositive(n);
    } else {
      Pow2Of32();
      PopCountPow2(31);
      ArraySizeIncreases(0x8000_0000, n);
    }
  }

  lemma {:induction false} PopCountPositive(n: nat)
    requires n >= 1
    ensures PopCount(n) >= 1
  {
    if n == 1 {
    } else {
      PopCountPositive(n / 2);
    }
  }

  /** The positions of the maximal perfect subtrees over `ls`, from the number of nodes alone. */
  method PeakPositions(size: u32, ghost ls: seq<LeafData>) returns (positions: set<int>)
    requires ls != [] && |ls| < 0x8000_0000
    requires size as int == 2 * |ls| - PopCount(|ls|)
    ensures positions == PeakMap(Mountains(ls)).Keys
  {
    ghost var ms := Mountains(ls);
    WordSizeExactly(|ls|);
    ghost var alts := MountainsAreRange(ls);
    SizeFormula(ls);
    RangePositions(ms, alts, |ms|);
    assert ms[..|ms|] == ms;
    assert Base(alts, |alts|) >= 1;
    positions := WalkPeaks(size, alts);
  }

  // -------------------------------------------------------------------------
  // The tree of one network upgrade.

  /** A block with the note commitment tree roots that its history leaf needs. */
  datatype Update = Update(block: Block, saplingRoot: nat, orchardRoot: nat)

  /** From NU5 on, leaves are version 2. */
  predicate OrchardUpgrade(u: NetworkUpgrade) {
    Rank(u) >= Rank(Nu5)
  }

  /** What the leaf of a block commits to. Only version 2 leaves commit to the Orchard root. */
  ghost predicate CommitsTo(leaf: LeafData, upgrade: NetworkUpgrade, update: Update) {
    && leaf.block == update.block && leaf.saplingRoot == update.saplingRoot
    && (leaf.V2? <==> upgrade in {Nu5, Nu6, Nu6_1, Nu7})
    && (leaf.V2? ==> leaf.orchardRoot == update.orchardRoot)
  }

  function LeafOf(u: NetworkUpgrade, update: Update): LeafData {
    if OrchardUpgrade(u) then V2(update.block, update.saplingRoot, update.orchardRoot)
    else V1(update.block, update.saplingRoot)
  }

  lemma {:induction false} LeafCommits(upgrade: NetworkUpgrade, update: Update)
    ensures CommitsTo(LeafOf(upgrade, update), upgrade, update)
  {
  }

  /** The version of the tree is the version of its leaves. */
  function WithTree(u: NetworkUpgrade, tree: CachedTree): (inner: Inner)
    ensures inner.tree == tree && (inner.OrchardOnward? <==> u in {Nu5, Nu6, Nu6_1, Nu7})
  {
    if OrchardUpgrade(u) then OrchardOnward(tree) else PreOrchard(tree)
  }

  /** Few enough leaves that all positions are 32-bit words: heights are positive and bounded. */
  lemma {:induction false} SizeFits(ls: seq<LeafData>)
    requires ls != [] && Consecutive(ls)
    requires 1 <= ls[0].block.height && ls[|ls| - 1].block.height <= MAX_HEIGHT
    ensures |ls| < 0x8000_0000 && |Flat(Mountains(ls))| < TWO_TO_THE_32 - 1
  {
    SizeFormula(ls);
    WordSizeExactly(|ls|);
    assert ls[|ls| - 1].block.height == ls[0].block.height + |ls| - 1;
  }

  /** `cache` is `prior` with the nodes `added` inserted at the positions from `base` on. */
  ghost predicate Extends(cache: map<nat, Node>, prior: map<nat, Node>, base: nat, added: seq<Node>) {
    && (forall k :: k in prior ==> k < base)
    && (forall k :: k in cache <==> k in prior || base <= k < base + |added|)
    && (forall k :: k in cache ==> cache[k] == if k < base then prior[k] else added[k - base])
  }

  /** Inserting the appended nodes at the end and keeping only the peak positions
    * turns the peak map over `ls` into the one over `ls + [d]`. */
  lemma {:induction false} PrunedCache(ls: seq<LeafData>, d: LeafData, cache: map<nat, Node>)
    requires Consecutive(ls + [d])
    requires var ms := Mountains(ls);
             Extends(cache, PeakMap(ms), |Flat(ms)|, Appended(ms, Leaf(d)))
    ensures var peaks := PeakMap(Mountains(ls + [d]));
            (map k | k in cache && k in peaks.Keys :: cache[k]) == peaks
  {
    var ms, n := Mountains(ls), Leaf(d);
    var ms' := Mountains(ls + [d]);
    AppendLeafCorrect(ls, d);
    PeakMapIsRestriction(ms);
    PeakMapIsRestriction(ms');
    CarryPeaks(ms, n);
    AppendedNotEmpty(ms, n);
    hide Mountains, PeakMap, Flat, Appended, Carry, Consecutive, Extends;
    Retained(cache, PeakMap(ms), Flat(ms), Appended(ms, n), PeakMap(ms'));
  }

  lemma {:induction false} Retained(cache: map<nat, Node>, peaks: map<nat, Node>, flat: seq<Node>, added: seq<Node>,
                                    peaks': map<nat, Node>)
    requires Extends(cache, peaks, |flat|, added)
    requires forall k :: k in peaks ==> k < |flat| && peaks[k] == flat[k]
    requires forall k :: k in peaks' ==> k < |flat + added| && peaks'[k] == (flat + added)[k]
    requires forall k :: k in peaks' ==> k in peaks || k >= |flat|
    ensures (map k | k in cache && k in peaks'.Keys :: cache[k]) == peaks'
  {
    forall k | k in peaks' ensures k in cache && cache[k] == peaks'[k] {
    }
  }

  lemma {:induction false} MountainsNotEmpty(ls: seq<LeafData>)
    requires ls != []
    ensures Mountains(ls) != []
  {
  }

  lemma {:induction false} AppendedNotEmpty(ms: seq<Node>, n: Node)
    ensures |Appended(ms, n)| >= 1
  {
  }

  /** Blocks are numbered consecutively from `start`. */
  ghost predicate Numbered(start: nat, updates: seq<Update>) {
    forall i :: 0 <= i < |updates| ==> updates[i].block.height == start + i
  }

  /** The leaves after pushing `updates` onto a tree over `ls` whose last block has height `height`. */
  ghost function Extended(network: Network, height: nat, ls: seq<LeafData>, updates: seq<Update>): seq<LeafData>
    requires 0 in network.activation
  {
    if updates == [] then ls
    else
      var h, last := height + |updates|, |updates| - 1;
      var leaf := LeafOf(Current(network, h), updates[last]);
      if Current(network, h) == Current(network, h - 1)
      then Extended(network, height, ls, updates[..last]) + [leaf] else [leaf]
  }

  lemma {:induction false} ExtendedStep(network: Network, height: nat, ls: seq<LeafData>, updates: seq<Update>, i: nat)
    requires 0 in network.activation && i <= |updates|
    ensures Extended(network, height, ls, []) == ls
    ensures i < |updates| ==>
              var leaf := LeafOf(Current(network, height + i + 1), updates[i]);
              Extended(network, height, ls, updates[..i + 1]) ==
              if Current(network, height + i + 1) == Current(network, height + i)
              then Extended(network, height, ls, updates[..i]) + [leaf] else [leaf]
  {
    if i < |updates| {
      assert updates[..i + 1][..i] == updates[..i];
    }
  }

  class NonEmptyHistoryTree {
    const network: Network
    var networkUpgrade: NetworkUpgrade
    var inner: Inner
    var size: u32
    var peaks: map<nat, Node>
    var currentHeight: nat
    /** Every leaf pushed since the tree was created. */
    ghost var leaves: seq<LeafData>

    /** The kept state is exactly what the full tree over all leaves determines. */
    ghost predicate Valid()
      reads this
    {
      && ValidLeaves(network, networkUpgrade, currentHeight, leaves)
      && size as int == |Flat(Mountains(leaves))|
      && peaks == PeakMap(Mountains(leaves))
      && inner == WithTree(networkUpgrade, CachedTree(size as int, Mountains(leaves), Root(leaves)))
    }

    constructor (network: Network, upgrade: NetworkUpgrade, inner: Inner, size: u32, peaks: map<nat, Node>,
                 height: nat, ghost ls: seq<LeafData>)
      ensures this.network == network && networkUpgrade == upgrade && this.inner == inner && this.size == size
      ensures this.peaks == peaks && currentHeight == height && leaves == ls
    {
      this.network, networkUpgrade, this.inner, this.size := network, upgrade, inner, size;
      this.peaks, currentHeight, leaves := peaks, height, ls;
    }

    /** A tree with a single block. */
    static method FromBlock(network: Network, update: Update) returns (t: NonEmptyHistoryTree)
      requires ValidNetwork(network) && update.block.height <= MAX_HEIGHT
      requires Rank(Current(network, update.block.height)) >= Rank(Heartwood)
      ensures fresh(t) && t.Valid() && t.network == network
      ensures t.networkUpgrade == Current(network, update.block.height)
      ensures t.currentHeight == update.block.height
      ensures t.leaves == [LeafOf(t.networkUpgrade, update)] && CommitsTo(t.leaves[0], t.networkUpgrade, update)
    {
      hide Mountains, Flat, PeakMap, InKeyOrder, CommitsTo;
      var upgrade := Current(network, update.block.height);
      LeafCommits(upgrade, update);
      var leaf := Leaf(LeafOf(upgrade, update));
      SingleLeaf(leaf.data);
      assert 0 in map[0 := leaf];
      var inner := WithTree(upgrade, NewFromCache(1, map[0 := leaf]));
      t := new NonEmptyHistoryTree(network, upgrade, inner, 1, map[0 := leaf], update.block.height, [leaf.data]);
    }

    /** Rebuilds a tree from its saved size and peaks; `ls` are the leaves of the saved tree. */
    static method FromCache(network: Network, size: u32, peaks: map<nat, Node>, height: nat, ghost ls: seq<LeafData>)
      returns (t: NonEmptyHistoryTree)
      requires ValidNetwork(network) && ValidLeaves(network, Current(network, height), height, ls)
      requires size as int == |Flat(Mountains(ls))| && peaks == PeakMap(Mountains(ls))
      ensures fresh(t) && t.Valid() && t.leaves == ls && t.network == network
      ensures t.currentHeight == height && t.size == size && t.peaks == peaks
    {
      assert ls != [];
      hide Mountains, Flat, PeakMap, InKeyOrder, Bag, CurrentActivation, Consecutive;
      var upgrade := Current(network, height);
      PeakMapInKeyOrder(Mountains(ls));
      MountainsNotEmpty(ls);
      var inner := WithTree(upgrade, NewFromCache(size as nat, peaks));
      t := new NonEmptyHistoryTree(network, upgrade, inner, size, peaks, height, ls);
    }

    /** Adds the next block. An activation block starts a new tree. */
    method Push(update: Update)
      requires Valid() && update.block.height == currentHeight + 1 <= MAX_HEIGHT
      modifies this
      ensures Valid() && currentHeight == update.block.height
      ensures networkUpgrade == Current(network, currentHeight)
      ensures var leaf := LeafOf(networkUpgrade, update);
              leaves == if networkUpgrade == old(networkUpgrade) then old(leaves) + [leaf] else [leaf]
      ensures CommitsTo(leaves[|leaves| - 1], networkUpgrade, update)
    {
      hide Mountains, Flat, PeakMap, Root, Appended, CurrentActivation, Consecutive, PopCount, CommitsTo;
      var upgrade := Current(network, update.block.height);
      LeafCommits(upgrade, update);
      if upgrade != networkUpgrade {
        UpgradeRises(network, currentHeight);
        var newTree := NonEmptyHistoryTree.FromBlock(network, update);
        networkUpgrade, inner, size := newTree.networkUpgrade, newTree.inner, newTree.size;
        peaks, currentHeight, leaves := newTree.peaks, newTree.currentHeight, newTree.leaves;
        return;
      }
      var d := LeafOf(upgrade, update);
      ghost var ls := leaves;
      ExtendedLeaves(network, networkUpgrade, currentHeight, ls, d);
      AppendLeafCorrect(ls, d);
      SizeFits(ls + [d]);
      PeakMapIsRestriction(Mountains(ls));
      var newEntries := Appended(inner.tree.range, Leaf(d));
      Insert(newEntries);
      leaves := ls + [d];
      PrunedCache(ls, d, peaks);
      Prune();
      currentHeight := update.block.height;
    }

    /** Stores new entries after the existing ones. Not every entry is a peak. */
    method Insert(newEntries: seq<Node>)
      requires size as int + |newEntries| < TWO_TO_THE_32
      requires forall k :: k in peaks ==> k < size as int
      modifies this`peaks, this`size
      ensures size as int == old(size) as int + |newEntries|
      ensures Extends(peaks, old(peaks), old(size) as int, newEntries)
    {
      for i := 0 to |newEntries|
        invariant size as int == old(size) as int + i
        invariant Extends(peaks, old(peaks), old(size) as int, newEntries[..i])
      {
        peaks := peaks[size as nat := newEntries[i]];
        size := size + 1;
      }
      assert newEntries[..|newEntries|] == newEntries;
    }

    /** Removes all non-peak entries and rebuilds the runtime tree from the rest. */
    method Prune()
      requires leaves != [] && |leaves| < 0x8000_0000 && size as int == |Flat(Mountains(leaves))|
      requires (map k | k in peaks && k in PeakMap(Mountains(leaves)).Keys :: peaks[k]) == PeakMap(Mountains(leaves))
      modifies this`peaks, this`inner
      ensures peaks == PeakMap(Mountains(leaves))
      ensures inner == WithTree(networkUpgrade, CachedTree(size as int, Mountains(leaves), Root(leaves)))
    {
      hide Mountains, Flat, PeakMap, InKeyOrder, Bag, PopCount;
      SizeFormula(leaves);
      MountainsNotEmpty(leaves);
      var positions := PeakPositions(size, leaves);
      peaks := map k | k in peaks && k in positions :: peaks[k];
      PeakMapInKeyOrder(Mountains(leaves));
      inner := WithTree(networkUpgrade, NewFromCache(size as nat, peaks));
    }

    /** Pushes a run of blocks. */
    method TryExtend(updates: seq<Update>)
      requires Valid() && currentHeight + |updates| <= MAX_HEIGHT
      requires Numbered(currentHeight + 1, updates)
      modifies this
      ensures Valid() && currentHeight == old(currentHeight) + |updates|
      ensures leaves == Extended(network, old(currentHeight), old(leaves), updates)
    {
      hide Current, Valid, ValidNetwork, Extended;
      CurrentUpgrade(this);
      ExtendedStep(network, currentHeight, leaves, [], 0);
      for i := 0 to |updates|
        invariant Valid() && currentHeight == old(currentHeight) + i
        invariant leaves == Extended(network, old(currentHeight), old(leaves), updates[..i])
      {
        CurrentUpgrade(this);
        ExtendedStep(network, old(currentHeight), old(leaves), updates, i);
        Push(updates[i]);
      }
      assert updates[..|updates|] == updates;
    }

    /** The root hash input: the root over every leaf, not just over the kept peaks. */
    function Hash(): (root: Node)
      requires Valid()
      reads this
      ensures root == Root(leaves) && Leaves(root) == leaves
    {
      RootLeaves(leaves);
      inner.tree.root
    }

    /** A copy rebuilt from the kept peaks. */
    method Clone() returns (copy: NonEmptyHistoryTree)
      requires Valid()
      ensures copy.Valid() && fresh(copy)
      ensures copy.leaves == leaves && copy.network == network
      ensures copy.networkUpgrade == networkUpgrade && copy.currentHeight == currentHeight
      ensures copy.inner == inner && copy.size == size && copy.peaks == peaks
    {
      copy := FromCache(network, size, peaks, currentHeight, leaves);
    }
  }

  /** The leaves are blocks of consecutive heights, all under one Heartwood-or-later upgrade. */
  ghost predicate ValidLeaves(network: Network, upgrade: NetworkUpgrade, height: nat, ls: seq<LeafData>) {
    && ValidNetwork(network) && height <= MAX_HEIGHT
    && upgrade == Current(network, height) && Rank(upgrade) >= Rank(Heartwood)
    && ls != [] && Consecutive(ls)
    && 1 <= ls[0].block.height && ls[|ls| - 1].block.height == height
    && Current(network, ls[0].block.height) == upgrade
    && (forall l :: l in ls ==> l.V2? == OrchardUpgrade(upgrade))
  }

  lemma {:induction false} SingleLeaf(d: LeafData)
    ensures Mountains([d]) == [Leaf(d)] && Flat([Leaf(d)]) == [Leaf(d)]
    ensures PeakMap([Leaf(d)]) == map[0 := Leaf(d)] && InKeyOrder(map[0 := Leaf(d)]) == [Leaf(d)]
  {
    assert [Leaf(d)][..0] == [];
    assert AllLeaves([Leaf(d)]) == [] + [d];
    assert Flat([Leaf(d)]) == [] + [Leaf(d)];
    assert IsRange([Leaf(d)], [0]);
    RangeUnique([Leaf(d)], [0]);
    PeakMapInKeyOrder([Leaf(d)]);
  }

  lemma {:induction false} UpgradeRises(network: Network, height: nat)
    requires ValidNetwork(network)
    ensures Rank(Current(network, height)) <= Rank(Current(network, height + 1))
  {
    CurrentStep(network, height);
  }

  lemma {:induction false} ExtendedLeaves(network: Network, upgrade: NetworkUpgrade, height: nat, ls: seq<LeafData>,
                                          d: LeafData)
    requires ValidLeaves(network, upgrade, height, ls)
    requires d.block.height == height + 1 <= MAX_HEIGHT && Current(network, height + 1) == upgrade
    requires d.V2? == OrchardUpgrade(upgrade)
    ensures ValidLeaves(network, upgrade, height + 1, ls + [d]) && Consecutive(ls + [d])
  {
    assert ls[|ls| - 1].block.height == ls[0].block.height + |ls| - 1;
  }

  // -------------------------------------------------------------------------
  // The tree that keeps track of its own creation.

  function HeartwoodHeight(network: Network): Option<nat>
    requires ValidNetwork(network)
  {
    ActivationHeight(network, Rank(Heartwood))
  }

  /** The leaves of the tree in force after the block of height `height`:
    * the blocks from the activation of the current upgrade on. `updates[i]` has height `start + i`. */
  ghost function LeavesInForce(network: Network, start: nat, updates: seq<Update>): seq<LeafData>
    requires ValidNetwork(network) && updates != []
    requires start <= CurrentActivation(network, start + |updates| - 1)
  {
    var height := start + |updates| - 1;
    LeavesFrom(Current(network, height), updates, CurrentActivation(network, height) - start)
  }

  /** The leaves of all blocks from one on. */
  ghost function LeavesFrom(upgrade: NetworkUpgrade, updates: seq<Update>, first: nat): seq<LeafData>
    requires first <= |updates|
  {
    seq(|updates| - first, i requires 0 <= i < |updates| - first => LeafOf(upgrade, updates[first + i]))
  }

  lemma {:induction false} LeavesFromAppend(upgrade: NetworkUpgrade, updates: seq<Update>, u: Update, first: nat)
    requires first <= |updates|
    ensures LeavesFrom(upgrade, updates + [u], first) == LeavesFrom(upgrade, updates, first) + [LeafOf(upgrade, u)]
    ensures LeavesFrom(upgrade, updates + [u], |updates|) == [LeafOf(upgrade, u)]
  {
    hide LeafOf;
  }

  /** The tree after pushing `updates` onto an empty tree: absent exactly below Heartwood,
    * otherwise over exactly the blocks of the upgrade in force. */
  ghost predicate InForce(network: Network, start: nat, updates: seq<Update>, tree: NonEmptyHistoryTree?)
    requires ValidNetwork(network)
    reads tree
  {
    var heartwood := HeartwoodHeight(network);
    if updates == [] || heartwood == None || start + |updates| - 1 < heartwood.value then tree == null
    else
      && tree != null && tree.Valid() && tree.network == network
      && tree.currentHeight == start + |updates| - 1
      && start <= CurrentActivation(network, tree.currentHeight)
      && tree.leaves == LeavesInForce(network, start, updates)
  }

  /** The leaves in force, block by block: one leaf per block since the activation of the current upgrade. */
  lemma {:induction false} LeavesInForceCommit(network: Network, start: nat, updates: seq<Update>)
    requires ValidNetwork(network) && updates != []
    requires start <= CurrentActivation(network, start + |updates| - 1)
    ensures var height := start + |updates| - 1;
            var first := CurrentActivation(network, height) - start;
            var ls := LeavesInForce(network, start, updates);
            && |ls| == |updates| - first
            && forall i :: 0 <= i < |ls| ==> CommitsTo(ls[i], Current(network, height), updates[first + i])
  {
    hide CurrentActivation, LeafOf, CommitsTo;
    var upgrade := Current(network, start + |updates| - 1);
    forall u | u in updates ensures CommitsTo(LeafOf(upgrade, u), upgrade, u) {
      LeafCommits(upgrade, u);
    }
  }

  lemma {:induction false} HeartwoodBoundary(network: Network, height: nat)
    requires ValidNetwork(network)
    ensures var a := HeartwoodHeight(network);
            && (Rank(Current(network, height)) >= Rank(Heartwood) <==> a.Some? && height >= a.value)
            && (a.Some? && height >= a.value ==> a.value <= CurrentActivation(network, height))
            && (a.Some? ==> 1 <= a.value && CurrentActivation(network, a.value) == a.value)
  {
    ActivationBoundary(network, Rank(Heartwood), height);
  }

  /** Within one upgrade the leaves in force grow by one; an activation block starts over. */
  lemma {:induction false} LeavesInForceStep(network: Network, start: nat, updates: seq<Update>, u: Update)
    requires ValidNetwork(network) && updates != []
    requires start <= CurrentActivation(network, start + |updates| - 1)
    ensures var upgrade := Current(network, start + |updates|);
            start <= CurrentActivation(network, start + |updates|) &&
            LeavesInForce(network, start, updates + [u]) ==
              if upgrade == Current(network, start + |updates| - 1)
              then LeavesInForce(network, start, updates) + [LeafOf(upgrade, u)]
              else [LeafOf(upgrade, u)]
  {
    CurrentStep(network, start + |updates| - 1);
    hide CurrentActivation, Current, ValidNetwork, LeafOf, LeavesFrom;
    assert start + |updates + [u]| - 1 == start + |updates|;
    LeavesFromAppend(Current(network, start + |updates|), updates, u,
                     CurrentActivation(network, start + |updates| - 1) - start);
  }

  class HistoryTree {
    var tree: NonEmptyHistoryTree?

    constructor ()
      ensures tree == null
    {
      tree := null;
    }

    /** The tree of one block: empty exactly below Heartwood. */
    constructor FromBlock(network: Network, update: Update)
      requires ValidNetwork(network) && update.block.height <= MAX_HEIGHT
      ensures tree == null <==> Rank(Current(network, update.block.height)) < Rank(Heartwood)
      ensures tree != null ==> fresh(tree) && tree.Valid() && tree.currentHeight == update.block.height
      ensures tree != null ==> tree.leaves == [LeafOf(Current(network, update.block.height), update)]
    {
      hide CurrentActivation, NonEmptyHistoryTree.Valid, ActivationHeight;
      HeartwoodBoundary(network, update.block.height);
      var heartwood := HeartwoodHeight(network);
      tree := null;
      new;
      if heartwood.Some? && update.block.height >= heartwood.value {
        var newTree := NonEmptyHistoryTree.FromBlock(network, update);
        tree := newTree;
      }
    }

    /** Pushes a block onto a maybe-existing tree. `past` is every block pushed before. */
    method Push(network: Network, update: Update, ghost start: nat, ghost past: seq<Update>)
      requires ValidNetwork(network) && InForce(network, start, past, tree)
      requires HeartwoodHeight(network).Some? ==> start <= HeartwoodHeight(network).value
      requires update.block.height == start + |past| <= MAX_HEIGHT
      modifies this, if tree == null then {} else {tree}
      ensures InForce(network, start, past + [update], tree)
      ensures tree == null || tree == old(tree) || fresh(tree)
    {
      hide LeavesInForce, CurrentActivation, NonEmptyHistoryTree.Valid, ActivationHeight;
      HeartwoodBoundary(network, update.block.height);
      var heartwood := HeartwoodHeight(network);
      if heartwood == None || update.block.height < heartwood.value {
        assert tree == null;
      } else if update.block.height == heartwood.value {
        var newTree := NonEmptyHistoryTree.FromBlock(network, update);
        tree := newTree;
        SingleLeafInForce(network, start, past, update);
      } else {
        assert tree != null;
        LeavesInForceStep(network, start, past, update);
        CurrentUpgrade(tree);
        tree.Push(update);
      }
    }

    /** A whole run from an empty tree. */
    method PushAll(network: Network, start: nat, updates: seq<Update>)
      requires ValidNetwork(network) && Numbered(start, updates) && start + |updates| <= MAX_HEIGHT + 1
      requires HeartwoodHeight(network).Some? ==> start <= HeartwoodHeight(network).value
      requires tree == null
      modifies this
      ensures InForce(network, start, updates, tree)
      ensures tree != null ==>
                var first := CurrentActivation(network, tree.currentHeight) - start;
                && |tree.leaves| == |updates| - first
                && forall i :: 0 <= i < |tree.leaves| ==>
                     CommitsTo(tree.leaves[i], tree.networkUpgrade, updates[first + i])
    {
      hide LeavesInForce, CurrentActivation, ActivationHeight, NonEmptyHistoryTree.Valid, CommitsTo;
      for i := 0 to |updates|
        invariant tree == null || fresh(tree)
        invariant InForce(network, start, updates[..i], tree)
      {
        assert updates[..i + 1] == updates[..i] + [updates[i]];
        Push(network, updates[i], start, updates[..i]);
      }
      assert updates[..|updates|] == updates;
      if tree != null {
        LeavesInForceCommit(network, start, updates);
        CurrentUpgrade(tree);
      }
    }
  }

  lemma {:induction false} CurrentUpgrade(tree: NonEmptyHistoryTree)
    requires tree.Valid()
    ensures 0 in tree.network.activation && tree.networkUpgrade == Current(tree.network, tree.currentHeight)
  {
  }

  lemma {:induction false} SingleLeafInForce(network: Network, start: nat, past: seq<Update>, u: Update)
    requires ValidNetwork(network) && CurrentActivation(network, start + |past|) == start + |past|
    ensures LeavesInForce(network, start, past + [u]) == [LeafOf(Current(network, start + |past|), u)]
  {
    assert start + |past + [u]| - 1 == start + |past|;
  }
}
