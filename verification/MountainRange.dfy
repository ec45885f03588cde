/** The Merkle mountain range of ZIP 221, section "Tree Node specification".
  * Hashing is the free term algebra: whatever is equal here is equal under every hash function. */
module MountainRange {
  import opened Integers

  /** The block header data that a history leaf commits to. */
  datatype Block = Block(height: nat, contents: nat)

  /** The data in a leaf. The Orchard root is only part of version 2 leaves. */
  datatype LeafData =
    | V1(block: Block, saplingRoot: nat)
    | V2(block: Block, saplingRoot: nat, orchardRoot: nat)

  datatype Node = Leaf(data: LeafData) | Parent(left: Node, right: Node)

  function StartHeight(n: Node): nat {
    match n
    case Leaf(data) => data.block.height
    case Parent(l, _) => StartHeight(l)
  }

  function EndHeight(n: Node): nat {
    match n
    case Leaf(data) => data.block.height
    case Parent(_, r) => EndHeight(r)
  }

  /** The number of leaves, as a node claims it through its height range. */
  function LeafCount(n: Node): int {
    EndHeight(n) - StartHeight(n) + 1
  }

  ghost function Leaves(n: Node): seq<LeafData> {
    match n
    case Leaf(data) => [data]
    case Parent(l, r) => Leaves(l) + Leaves(r)
  }

  /** The nodes of one tree in array order: every child before its parent. */
  ghost function PostOrder(n: Node): (s: seq<Node>)
    ensures |s| >= 1 && s[|s| - 1] == n
  {
    match n
    case Leaf(_) => [n]
    case Parent(l, r) => PostOrder(l) + PostOrder(r) + [n]
  }

  ghost predicate Perfect(n: Node, alt: nat) {
    if alt == 0 then n.Leaf?
    else n.Parent? && Perfect(n.left, alt - 1) && Perfect(n.right, alt - 1)
  }

  ghost predicate Consecutive(ls: seq<LeafData>) {
    forall i :: 0 <= i < |ls| ==> ls[i].block.height == ls[0].block.height + i
  }

  ghost function AllLeaves(ms: seq<Node>): seq<LeafData> {
    if ms == [] then [] else AllLeaves(ms[..|ms| - 1]) + Leaves(ms[|ms| - 1])
  }

  /** The array representation of a range. */
  ghost function Flat(ms: seq<Node>): seq<Node> {
    if ms == [] then [] else Flat(ms[..|ms| - 1]) + PostOrder(ms[|ms| - 1])
  }

  /** The peaks of a range, each at its position in the array representation. */
  ghost function PeakMap(ms: seq<Node>): map<nat, Node> {
    if ms == [] then map[] else PeakMap(ms[..|ms| - 1])[|Flat(ms)| - 1 := ms[|ms| - 1]]
  }

  /** The root: peaks are combined from left to right. */
  function Bag(ms: seq<Node>): Node
    requires ms != []
  {
    if |ms| == 1 then ms[0] else Parent(Bag(ms[..|ms| - 1]), ms[|ms| - 1])
  }

  // -------------------------------------------------------------------------
  // The reference: a leaf sequence splits into maximal perfect trees.

  ghost function PerfectTree(ls: seq<LeafData>, alt: nat): (n: Node)
    requires |ls| == Pow2(alt)
    ensures Perfect(n, alt) && Leaves(n) == ls
    decreases alt
  {
    if alt == 0 then Leaf(ls[0])
    else
      var half := Pow2(alt - 1);
      assert ls == ls[..half] + ls[half..];
      Parent(PerfectTree(ls[..half], alt - 1), PerfectTree(ls[half..], alt - 1))
  }

  ghost function Mountains(ls: seq<LeafData>): seq<Node>
    decreases |ls|
  {
    if ls == [] then []
    else
      var alt := Log2(|ls|);
      [PerfectTree(ls[..Pow2(alt)], alt)] + Mountains(ls[Pow2(alt)..])
  }

  // -------------------------------------------------------------------------
  // Perfect trees.

  lemma {:induction false} PerfectSize(n: Node, alt: nat)
    requires Perfect(n, alt)
    ensures |Leaves(n)| == Pow2(alt)
    ensures |PostOrder(n)| == Pow2(alt + 1) - 1
    decreases alt
  {
    if alt == 0 {
    } else {
      PerfectSize(n.left, alt - 1);
      PerfectSize(n.right, alt - 1);
    }
  }

  lemma {:induction false} PerfectUnique(n: Node, alt: nat)
    requires Perfect(n, alt)
    ensures |Leaves(n)| == Pow2(alt) && n == PerfectTree(Leaves(n), alt)
    decreases alt
  {
    PerfectSize(n, alt);
    if alt == 0 {
    } else {
      PerfectSize(n.left, alt - 1);
      PerfectUnique(n.left, alt - 1);
      PerfectUnique(n.right, alt - 1);
      assert Leaves(n)[..Pow2(alt - 1)] == Leaves(n.left);
      assert Leaves(n)[Pow2(alt - 1)..] == Leaves(n.right);
    }
  }

  /** Over consecutive heights the height range of a node counts its leaves. */
  lemma {:induction false} LeafCountExact(n: Node)
    requires Consecutive(Leaves(n))
    ensures |Leaves(n)| >= 1
    ensures StartHeight(n) == Leaves(n)[0].block.height
    ensures EndHeight(n) == Leaves(n)[|Leaves(n)| - 1].block.height
    ensures LeafCount(n) == |Leaves(n)|
  {
    if n.Leaf? {
    } else {
      var ls, k := Leaves(n), |Leaves(n.left)|;
      assert Leaves(n.left) == ls[..k] && Leaves(n.right) == ls[k..];
      LeafCountExact(n.left);
      LeafCountExact(n.right);
      assert ls[k] == Leaves(n.right)[0] && ls[k - 1] == Leaves(n.left)[k - 1];
    }
  }

  // -------------------------------------------------------------------------
  // Ranges: perfect trees of strictly decreasing altitudes.

  /** `alts` lists the altitudes of the trees in `ms`, highest first. */
  ghost predicate IsRange(ms: seq<Node>, alts: seq<nat>) {
    && |ms| == |alts|
    && (forall i :: 0 <= i < |ms| ==> Perfect(ms[i], alts[i]))
    && (forall i, j :: 0 <= i < j < |alts| ==> alts[i] > alts[j])
  }

  lemma {:induction false} AllLeavesSplit(ms: seq<Node>, k: nat)
    requires k <= |ms|
    ensures AllLeaves(ms) == AllLeaves(ms[..k]) + AllLeaves(ms[k..])
    decreases |ms|
  {
    if k < |ms| {
      var last := |ms| - 1;
      AllLeavesSplit(ms[..last], k);
      assert ms[..last][..k] == ms[..k];
      assert ms[..last][k..] == ms[k..][..last - k];
    } else {
      assert ms[..k] == ms;
    }
  }

  lemma {:induction false} Associate(a: seq<Node>, b: seq<Node>, c: seq<Node>)
    ensures (a + b) + c == a + (b + c)
  {
  }

  lemma {:induction false} FlatLast(ms: seq<Node>)
    requires ms != []
    ensures Flat(ms) == Flat(ms[..|ms| - 1]) + PostOrder(ms[|ms| - 1])
  {
  }

  lemma {:induction false} FlatSplit(ms: seq<Node>, k: nat)
    requires k <= |ms|
    ensures Flat(ms) == Flat(ms[..k]) + Flat(ms[k..])
    decreases |ms|
  {
    if k < |ms| {
      var last := |ms| - 1;
      FlatSplit(ms[..last], k);
      assert ms[..last][..k] == ms[..k] && ms[..last][k..] == ms[k..][..last - k];
      Associate(Flat(ms[..k]), Flat(ms[k..][..last - k]), PostOrder(ms[last]));
    } else {
      assert ms[..k] == ms;
    }
  }

  /** The first tree of a range and the rest of it. */
  lemma {:induction false} RangeTail(ms: seq<Node>, alts: seq<nat>)
    requires IsRange(ms, alts) && ms != []
    ensures IsRange(ms[1..], alts[1..])
    ensures forall i :: 0 <= i < |alts[1..]| ==> alts[1..][i] < alts[0]
    ensures AllLeaves(ms) == Leaves(ms[0]) + AllLeaves(ms[1..])
    ensures Flat(ms) == PostOrder(ms[0]) + Flat(ms[1..])
    ensures |Leaves(ms[0])| == Pow2(alts[0]) && |PostOrder(ms[0])| == Pow2(alts[0] + 1) - 1
  {
    FirstLeaves(ms);
    FirstFlat(ms);
    PerfectSize(ms[0], alts[0]);
    hide AllLeaves, Flat, PostOrder, Leaves, Perfect, Pow2;
  }

  lemma {:induction false} FirstLeaves(ms: seq<Node>)
    requires ms != []
    ensures AllLeaves(ms) == Leaves(ms[0]) + AllLeaves(ms[1..])
  {
    AllLeavesSplit(ms, 1);
    assert ms[..1][..0] == [];
    assert AllLeaves(ms[..1]) == [] + Leaves(ms[0]);
  }

  lemma {:induction false} FirstFlat(ms: seq<Node>)
    requires ms != []
    ensures Flat(ms) == PostOrder(ms[0]) + Flat(ms[1..])
  {
    FlatSplit(ms, 1);
    assert ms[..1][..0] == [];
    assert Flat(ms[..1]) == [] + PostOrder(ms[0]);
  }

  /** Trees of distinct altitudes below `alt` do not fill a tree of altitude `alt`:
    * neither in leaves nor in array positions. */
  lemma {:induction false} RangeBelow(ms: seq<Node>, alts: seq<nat>, alt: nat)
    requires IsRange(ms, alts)
    requires alts != [] ==> alts[0] < alt
    ensures |AllLeaves(ms)| < Pow2(alt)
    ensures |Flat(ms)| <= Pow2(alt + 1) - 2
    decreases |ms|
  {
    if ms == [] {
    } else {
      RangeTail(ms, alts);
      RangeBelow(ms[1..], alts[1..], alts[0]);
      Pow2Monotonic(alts[0] + 1, alt);
    }
  }

  /** The highest tree of a range is the one its leaf count and its array length call for. */
  lemma {:induction false} RangeHead(ms: seq<Node>, alts: seq<nat>)
    requires IsRange(ms, alts) && ms != []
    ensures Pow2(alts[0]) <= |AllLeaves(ms)| < Pow2(alts[0] + 1)
    ensures Pow2(alts[0] + 1) - 1 <= |Flat(ms)| <= Pow2(alts[0] + 2) - 3
    ensures AllLeaves(ms)[..Pow2(alts[0])] == Leaves(ms[0])
    ensures AllLeaves(ms)[Pow2(alts[0])..] == AllLeaves(ms[1..])
  {
    RangeTail(ms, alts);
    RangeBelow(ms[1..], alts[1..], alts[0]);
  }

  /** A range is determined by its leaves: it is their decomposition into maximal perfect trees. */
  lemma {:induction false} RangeUnique(ms: seq<Node>, alts: seq<nat>)
    requires IsRange(ms, alts)
    ensures ms == Mountains(AllLeaves(ms))
    decreases |ms|
  {
    if ms == [] {
    } else {
      assert Perfect(ms[0], alts[0]);
      hide AllLeaves, Leaves, Flat, PostOrder, Perfect, PerfectTree, Pow2, IsRange, Log2;
      RangeHead(ms, alts);
      RangeTail(ms, alts);
      var ls := AllLeaves(ms);
      Log2Unique(|ls|, alts[0]);
      PerfectUnique(ms[0], alts[0]);
      RangeUnique(ms[1..], alts[1..]);
      assert ms == [ms[0]] + ms[1..];
    }
  }

  /** Putting a higher tree in front of a range. */
  lemma {:induction false} RangeCons(n: Node, alt: nat, ms: seq<Node>, alts: seq<nat>)
    requires Perfect(n, alt) && IsRange(ms, alts)
    requires alts != [] ==> alts[0] < alt
    ensures IsRange([n] + ms, [alt] + alts)
    ensures AllLeaves([n] + ms) == Leaves(n) + AllLeaves(ms)
  {
    RangeTail([n] + ms, [alt] + alts);
    assert ([n] + ms)[1..] == ms;
  }

  /** Too few leaves for a tree of altitude `alt` means lower trees only. */
  lemma {:induction false} RangeLower(ms: seq<Node>, alts: seq<nat>, alt: nat)
    requires IsRange(ms, alts) && |AllLeaves(ms)| < Pow2(alt)
    ensures alts != [] ==> alts[0] < alt
  {
    if alts != [] {
      RangeHead(ms, alts);
      Pow2StrictlyMonotonic(alts[0], alt);
    }
  }

  /** The decomposition of a leaf sequence is a range with those leaves. */
  lemma {:induction false} MountainsAreRange(ls: seq<LeafData>) returns (alts: seq<nat>)
    ensures IsRange(Mountains(ls), alts)
    ensures AllLeaves(Mountains(ls)) == ls
    decreases |ls|
  {
    hide AllLeaves, Leaves, Perfect, PerfectTree, IsRange, Pow2;
    if ls == [] {
      alts := [];
      NoMountains();
    } else {
      var alt := Log2(|ls|);
      var first, rest := ls[..Pow2(alt)], ls[Pow2(alt)..];
      var restAlts := MountainsAreRange(rest);
      RangeLower(Mountains(rest), restAlts, alt);
      alts := [alt] + restAlts;
      var n := PerfectTree(first, alt);
      assert ls == first + rest;
      assert Mountains(ls) == [n] + Mountains(rest);
      hide Mountains;
      RangeCons(n, alt, Mountains(rest), restAlts);
    }
  }

  lemma {:induction false} NoMountains()
    ensures Mountains([]) == [] && IsRange([], []) && AllLeaves([]) == []
  {
  }

  // -------------------------------------------------------------------------
  // Appending a leaf.

  /** The peaks after appending the tree `n`: equal-sized neighbours merge. */
  function Carry(ms: seq<Node>, n: Node): seq<Node>
    decreases |ms|
  {
    if ms != [] && LeafCount(ms[|ms| - 1]) == LeafCount(n)
    then Carry(ms[..|ms| - 1], Parent(ms[|ms| - 1], n))
    else ms + [n]
  }

  /** The stored nodes an append adds: the leaf, then each newly completed parent, in array order. */
  function Appended(ms: seq<Node>, n: Node): seq<Node>
    decreases |ms|
  {
    if ms != [] && LeafCount(ms[|ms| - 1]) == LeafCount(n)
    then [n] + Appended(ms[..|ms| - 1], Parent(ms[|ms| - 1], n))
    else [n]
  }

  lemma {:induction false} Regroup(a: seq<Node>, b: seq<Node>, c: seq<Node>, n: Node, d: seq<Node>)
    ensures a + (b + (c + [n])) + d == (a + b) + c + ([n] + d)
  {
  }

  /** The nodes of a tree without its root. */
  ghost function BelowRoot(n: Node): (s: seq<Node>)
    ensures PostOrder(n) == s + [n]
  {
    PostOrder(n)[..|PostOrder(n)| - 1]
  }

  /** Appending only ever adds nodes at the end of the array. */
  lemma {:induction false} CarryExtendsArray(ms: seq<Node>, n: Node)
    ensures Flat(Carry(ms, n)) == Flat(ms) + BelowRoot(n) + Appended(ms, n)
    decreases |ms|
  {
    hide LeafCount, PostOrder, BelowRoot, Flat;
    var last := |ms| - 1;
    if ms != [] && LeafCount(ms[last]) == LeafCount(n) {
      var init, l := ms[..last], ms[last];
      CarryExtendsArray(init, Parent(l, n));
      ParentOrder(l, n);
      FlatLast(ms);
      Regroup(Flat(init), PostOrder(l), BelowRoot(n), n, Appended(init, Parent(l, n)));
    } else {
      FlatSnoc(ms, n);
      Regroup(Flat(ms), [], BelowRoot(n), n, []);
    }
  }

  lemma {:induction false} FlatSnoc(ms: seq<Node>, n: Node)
    ensures Flat(ms + [n]) == Flat(ms) + PostOrder(n)
  {
    assert (ms + [n])[..|ms|] == ms;
  }

  lemma {:induction false} ParentOrder(l: Node, r: Node)
    ensures BelowRoot(Parent(l, r)) == PostOrder(l) + PostOrder(r)
  {
  }

  /** Every peak after an append is an old peak at its old position, or the node added last. */
  lemma {:induction false} CarryPeaks(ms: seq<Node>, n: Node)
    ensures Carry(ms, n) != []
    ensures forall k :: k in PeakMap(Carry(ms, n)) ==> k in PeakMap(ms) || k == |Flat(Carry(ms, n))| - 1
    decreases |ms|
  {
    var last := |ms| - 1;
    if ms != [] && LeafCount(ms[last]) == LeafCount(n) {
      CarryPeaks(ms[..last], Parent(ms[last], n));
    } else {
      assert (ms + [n])[..|ms|] == ms;
    }
  }

  /** Putting a lower tree at the end of a range. */
  lemma {:induction false} RangeSnoc(ms: seq<Node>, alts: seq<nat>, n: Node, alt: nat)
    requires IsRange(ms, alts) && Perfect(n, alt)
    requires alts != [] ==> alt < alts[|alts| - 1]
    ensures IsRange(ms + [n], alts + [alt])
    ensures AllLeaves(ms + [n]) == AllLeaves(ms) + Leaves(n)
  {
    assert (ms + [n])[..|ms|] == ms;
  }

  /** Neighbouring perfect trees claim equal leaf counts exactly if their altitudes agree. */
  lemma {:induction false} EqualCounts(before: seq<LeafData>, l: Node, a: nat, n: Node, b: nat)
    requires Perfect(l, a) && Perfect(n, b)
    requires Consecutive(before + Leaves(l) + Leaves(n))
    ensures LeafCount(l) == LeafCount(n) <==> a == b
  {
    hide Leaves, LeafCount, Perfect, Pow2;
    var ls, i := before + Leaves(l) + Leaves(n), |before|;
    var j := i + |Leaves(l)|;
    ConsecutivePart(ls, i, j);
    ConsecutivePart(ls, j, |ls|);
    assert Leaves(l) == ls[i..j] && Leaves(n) == ls[j..|ls|];
    hide Consecutive;
    LeafCountExact(l);
    LeafCountExact(n);
    PerfectSize(l, a);
    PerfectSize(n, b);
    Pow2Injective(a, b);
  }

  lemma {:induction false} ConsecutivePart(ls: seq<LeafData>, i: nat, j: nat)
    requires Consecutive(ls) && i <= j <= |ls|
    ensures Consecutive(ls[i..j])
  {
  }

  /** Merging equal neighbours keeps a range a range and keeps its leaves. */
  lemma {:induction false} CarryKeepsRange(ms: seq<Node>, alts: seq<nat>, n: Node, alt: nat)
    returns (alts': seq<nat>)
    requires IsRange(ms, alts) && Perfect(n, alt)
    requires alts != [] ==> alt <= alts[|alts| - 1]
    requires Consecutive(AllLeaves(ms) + Leaves(n))
    ensures IsRange(Carry(ms, n), alts')
    ensures AllLeaves(Carry(ms, n)) == AllLeaves(ms) + Leaves(n)
    decreases |ms|
  {
    if ms == [] {
      alts' := [alt];
      RangeSnoc(ms, alts, n, alt);
    } else {
      var last := |ms| - 1;
      var init, l := ms[..last], ms[last];
      EqualCounts(AllLeaves(init), l, alts[last], n, alt);
      if LeafCount(l) == LeafCount(n) {
        var p := Parent(l, n);
        assert AllLeaves(init) + Leaves(p) == AllLeaves(ms) + Leaves(n);
        assert Perfect(p, alt + 1);
        assert IsRange(init, alts[..last]);
        alts' := CarryKeepsRange(init, alts[..last], p, alt + 1);
      } else {
        alts' := alts + [alt];
        RangeSnoc(ms, alts, n, alt);
      }
    }
  }

  /** Appending one leaf to the decomposition of `ls` gives the decomposition of `ls + [d]`,
    * and extends the array representation by exactly the appended nodes. */
  lemma {:induction false} AppendLeafCorrect(ls: seq<LeafData>, d: LeafData)
    requires Consecutive(ls + [d])
    ensures Carry(Mountains(ls), Leaf(d)) == Mountains(ls + [d])
    ensures Flat(Mountains(ls + [d])) == Flat(Mountains(ls)) + Appended(Mountains(ls), Leaf(d))
  {
    var ms, n := Mountains(ls), Leaf(d);
    assert Carry(ms, n) == Mountains(ls + [d]) by {
      var alts := MountainsAreRange(ls);
      var alts' := CarryKeepsRange(ms, alts, n, 0);
      RangeUnique(Carry(ms, n), alts');
    }
    CarryExtendsArray(ms, n);
    assert Flat(ms) + PostOrder(n)[..0] == Flat(ms);
  }

  // -------------------------------------------------------------------------
  // The peak map as a cache of the array.

  /** The peak map is the array representation restricted to the peak positions. */
  lemma {:induction false} PeakMapIsRestriction(ms: seq<Node>)
    ensures forall k :: k in PeakMap(ms) ==> k < |Flat(ms)| && PeakMap(ms)[k] == Flat(ms)[k]
  {
    if ms == [] {
    } else {
      PeakMapIsRestriction(ms[..|ms| - 1]);
    }
  }

  /** The array holds `2n - p` nodes for `n` leaves under `p` peaks. */
  lemma {:induction false} ArraySize(ms: seq<Node>)
    ensures |Flat(ms)| == 2 * |AllLeaves(ms)| - |ms|
  {
    if ms == [] {
    } else {
      ArraySize(ms[..|ms| - 1]);
      TreeSize(ms[|ms| - 1]);
    }
  }

  lemma {:induction false} TreeSize(n: Node)
    ensures |PostOrder(n)| == 2 * |Leaves(n)| - 1
  {
    if n.Leaf? {
    } else {
      TreeSize(n.left);
      TreeSize(n.right);
    }
  }

  function PopCount(n: nat): nat {
    if n == 0 then 0 else n % 2 + PopCount(n / 2)
  }

  lemma {:induction false} PopCountTopBit(n: nat, k: nat)
    requires Pow2(k) <= n < Pow2(k + 1)
    ensures PopCount(n) == 1 + PopCount(n - Pow2(k))
    decreases k
  {
    if k == 0 {
    } else {
      PopCountTopBit(n / 2, k - 1);
      assert (n - Pow2(k)) / 2 == n / 2 - Pow2(k - 1);
      assert (n - Pow2(k)) % 2 == n % 2;
    }
  }

  /** There is one peak per set bit of the leaf count. */
  lemma {:induction false} PeakCount(ls: seq<LeafData>)
    ensures |Mountains(ls)| == PopCount(|ls|)
    decreases |ls|
  {
    if ls == [] {
    } else {
      hide PerfectTree, PopCount;
      PopCountTopBit(|ls|, Log2(|ls|));
      PeakCount(ls[Pow2(Log2(|ls|))..]);
    }
  }

  // -------------------------------------------------------------------------
  // The root.

  /** The root of the tree over the given leaves. */
  ghost function Root(ls: seq<LeafData>): Node
    requires ls != []
  {
    Bag(Mountains(ls))
  }

  lemma {:induction false} BagLeaves(ms: seq<Node>)
    requires ms != []
    ensures Leaves(Bag(ms)) == AllLeaves(ms)
  {
    if |ms| == 1 {
      assert ms[..0] == [];
      assert AllLeaves(ms) == [] + Leaves(ms[0]);
    } else {
      BagLeaves(ms[..|ms| - 1]);
    }
  }

  /** The leaves below the root are all leaves, in order. */
  lemma {:induction false} RootLeaves(ls: seq<LeafData>)
    requires ls != []
    ensures Leaves(Root(ls)) == ls
  {
    var _ := MountainsAreRange(ls);
    BagLeaves(Mountains(ls));
  }

  /** With a collision-free hash the root commits to the whole leaf sequence. */
  lemma {:induction false} RootCommits(ls: seq<LeafData>, ls': seq<LeafData>)
    requires ls != [] && ls' != [] && Root(ls) == Root(ls')
    ensures ls == ls'
  {
    RootLeaves(ls);
    RootLeaves(ls');
  }
}
