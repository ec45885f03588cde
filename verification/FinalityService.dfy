/** The finality service: the internal state that decided BFT blocks update in place. */
module FinalityService {
  import opened Bytes
  import opened FatPointers
  import opened Finality
  import opened Options
  import opened PowChain
  import opened Rewards
  import opened Roster

  datatype Status = Pass | Fail | Indeterminate | Panic

  /** Where the newly final blocks begin: after the last final block, if there is one. */
  function FirstNew(final: Option<(nat, Hash)>, start: nat, end: nat): nat {
    if final.Some? && start < end then start + 1 else start
  }

  /** The walk over a block sequence skips exactly the last final block. */
  lemma {:induction false} SkipsBoundary(best: seq<PowBlock>, final: Option<(nat, Hash)>, candidate: (nat, Hash),
                                         i: nat)
    requires ValidBest(best)
    requires var (start, end) := Bounds(best, final.GetOr(candidate).1, Some(candidate), true); i < end - start
    ensures var (start, _) := Bounds(best, final.GetOr(candidate).1, Some(candidate), true);
            final.Some? ==> (final.value.1 == best[start + i].hash <==> i == 0)
  {
    HeightIsIndex(best, Bounds(best, final.GetOr(candidate).1, Some(candidate), true).0 + i);
  }

  lemma {:induction false} PaidNext(m: Members, best: seq<PowBlock>, from: nat, at: nat)
    requires from <= at < |best|
    ensures var before := Paid(m, Segment(best, from, at));
            && Paid(m, Segment(best, from, at + 1)) == Commands(before.(vs := Rewarded(before.vs)), best[at].txs)
            && Segment(best, from, at + 1) == Segment(best, from, at) + [(at, best[at])]
  {
    hide Commands, Rewarded;
    var s := Segment(best, from, at + 1);
    assert s[..|s| - 1] == Segment(best, from, at);
    assert s[|s| - 1] == (at, best[at]);
    assert s == s[..|s| - 1] + [s[|s| - 1]];
  }

  class TflServiceInternal {
    const hash: Block -> Bytes
    var bftBlocks: seq<Block>
    var fatPointerToTip: FatPointer
    var latestFinalBlock: Option<(nat, Hash)>
    var currentBcFinal: Option<(nat, Hash)>
    var members: Members
    /** The blocks rewarded and broadcast as final so far. */
    ghost var rewarded: seq<(nat, PowBlock)>

    ghost function Abs(): State
      reads this
    {
      State(bftBlocks, fatPointerToTip, currentBcFinal, members, rewarded)
    }

    ghost predicate Valid()
      reads this
    {
      ValidLog(hash, bftBlocks, fatPointerToTip) && latestFinalBlock == currentBcFinal
    }

    constructor (hash: Block -> Bytes, members: Members)
      ensures Valid() && this.hash == hash
      ensures Abs() == Start(members)
    {
      this.hash, this.members := hash, members;
      bftBlocks, fatPointerToTip := [], NullFatPointer();
      latestFinalBlock, currentBcFinal, rewarded := None, None, [];
    }

    /** A block fails exactly if it does not extend the tip. Otherwise one without headers panics, and it passes
      * or stays indeterminate as its candidate is known or not. */
    method Validate(d: Decision) returns (status: Status)
      requires ValidFatPointer(d.block.previous) && ValidFatPointer(fatPointerToTip)
      ensures status.Fail? <==> PointsAtBlockHash(d.block.previous) != PointsAtBlockHash(fatPointerToTip)
      ensures status.Panic? <==> !status.Fail? && d.block.headers == []
      ensures status.Pass? <==>
                && PointsAtBlockHash(d.block.previous) == PointsAtBlockHash(fatPointerToTip)
                && d.block.headers != [] && d.block.headers[0].hash in d.known
    {
      if PointsAtBlockHash(d.block.previous) != PointsAtBlockHash(fatPointerToTip) {
        return Fail;
      }
      if d.block.headers == [] {
        return Panic;
      }
      return if d.block.headers[0].hash in d.known then Pass else Indeterminate;
    }

    /** Fills the log with placeholders up to and including an index. */
    method PadTo(insertAt: nat)
      modifies this`bftBlocks
      ensures bftBlocks == Padded(old(bftBlocks), insertAt)
    {
      var i := |bftBlocks|;
      while i <= insertAt
        invariant |old(bftBlocks)| <= i == |bftBlocks| && old(bftBlocks) <= bftBlocks
        invariant if insertAt < |old(bftBlocks)| then i == |old(bftBlocks)| else i <= insertAt + 1
        invariant forall j :: |old(bftBlocks)| <= j < i ==> bftBlocks[j] == Placeholder(j)
      {
        bftBlocks := bftBlocks + [Placeholder(i)];
        i := i + 1;
      }
      assert bftBlocks == Padded(old(bftBlocks), insertAt);
    }

    /** Writes a decided block into the log. Fails exactly if it is not the next one. */
    method Append(block: Block) returns (panicked: bool)
      requires HashSound(hash) && ValidLog(hash, bftBlocks, fatPointerToTip) && block.headers != []
      requires ValidFatPointer(block.previous)
      requires PointsAtBlockHash(block.previous) == PointsAtBlockHash(fatPointerToTip)
      modifies this`bftBlocks
      ensures panicked <==> block.height != |old(bftBlocks)| + 1
      ensures !panicked ==> bftBlocks == old(bftBlocks) + [block]
    {
      if block.height == 0 {
        return true;
      }
      var insertAt := block.height - 1;
      OnlyNextHeight(hash, bftBlocks, fatPointerToTip, block);
      PadTo(insertAt);
      if !LogChecks(hash, bftBlocks, insertAt, block) {
        return true;
      }
      bftBlocks := bftBlocks[insertAt := block];
      return false;
    }

    /** Rewards one newly final block and applies its staking commands. */
    method PayBlock(best: seq<PowBlock>, hash: Hash, ghost at: nat)
      requires ValidBest(best) && at < |best| && best[at].hash == hash
      modifies this`members, this`rewarded
      ensures members == Commands(old(members).(vs := Rewarded(old(members).vs)), best[at].txs)
      ensures rewarded == old(rewarded) + [(at, best[at])]
    {
      var vs, _ := DivideReward(members.vs);
      members := members.(vs := vs);
      HeightIsIndex(best, at);
      var height := HeightByHash(best, hash);
      if height.Some? {
        var count, fits;
        members, count, fits := UpdateRosterForBlock(members, best[height.value].txs);
        rewarded := rewarded + [(height.value, best[height.value])];
      }
    }

    /** Walks all blocks in the newly final sequence, skipping the repeated boundary block. */
    method WalkFinal(best: seq<PowBlock>, maxResults: nat)
      requires ValidBest(best) && maxResults >= 1 && latestFinalBlock.Some?
      modifies this`members, this`rewarded, this`currentBcFinal
      ensures var blocks := NewlyFinal(old(currentBcFinal), best, latestFinalBlock.value);
              members == Paid(old(members), blocks) && rewarded == old(rewarded) + blocks
      ensures currentBcFinal == latestFinalBlock
    {
      hide Paid, Segment, Bounds, HeightByHash, ValidBest, Commands, Rewarded;
      var candidate := latestFinalBlock.value;
      var startHash := if currentBcFinal.Some? then currentBcFinal.value.1 else candidate.1;
      var hashes := BlockSequence(best, maxResults, startHash, Some(candidate), true);
      ghost var (start, end) := Bounds(best, startHash, Some(candidate), true);
      ghost var from := FirstNew(currentBcFinal, start, end);
      SegmentEmpty(best, from);
      for i := 0 to |hashes|
        invariant i > 0 ==> from <= start + i
        invariant members == Paid(old(members), Segment(best, from, if from <= start + i then start + i else from))
        invariant rewarded == old(rewarded) + Segment(best, from, if from <= start + i then start + i else from)
        invariant currentBcFinal == old(currentBcFinal)
      {
        assert hashes[i].1 == best[start + i].hash;
        SkipsBoundary(best, currentBcFinal, candidate, i);
        if currentBcFinal.Some? && currentBcFinal.value.1 == hashes[i].1 {
          continue;
        }
        PaidNext(old(members), best, from, start + i);
        PayBlock(best, hashes[i].1, start + i);
      }
      currentBcFinal := latestFinalBlock;
    }

    /** Takes a decided block. It panics exactly if the block may not be decided next, and otherwise the
      * new state is the one the decision determines. */
    method NewDecided(d: Decision, ghost heightOf: Hash -> nat) returns (panicked: bool, roster: seq<Member>)
      requires Valid() && HashSound(hash) && ValidDecision(heightOf, d)
      modifies this
      ensures panicked <==> !CanDecide(hash, old(Abs()), d)
      ensures !panicked ==> Valid() && Abs() == Decide(old(Abs()), d)
      ensures !panicked ==> d.signaturesValid && PointsAtBlockHash(d.pointer) == hash(d.block)
      ensures !panicked ==> d.block.headers != [] && d.block.headers[0].hash in d.known
      ensures !panicked ==> latestFinalBlock == Some((heightOf(d.block.headers[0].hash), d.block.headers[0].hash))
      ensures !panicked ==> roster == Canonical(members.vs)
    {
      hide Paid, NewlyFinal, HashSound, Canonical;
      roster := [];
      if PointsAtBlockHash(d.pointer) != hash(d.block) || !d.signaturesValid {
        return true, roster;
      }
      var status := Validate(d);
      if status != Pass {
        return true, roster;
      }
      var candidate := (d.known[d.block.headers[0].hash], d.block.headers[0].hash);
      panicked := Append(d.block);
      if panicked {
        return;
      }
      if CanDecide(hash, old(Abs()), d) {
        DecideKeepsLog(hash, old(Abs()), d);
      }
      fatPointerToTip := d.pointer;
      latestFinalBlock := Some(candidate);
      match d.response {
        case Finalized(h) => if h != candidate.1 { return true, roster; }
        case WrongResponse => return true, roster;
        case FinalizeFailed =>
      }
      WalkFinal(d.best, d.maxResults);
      var fits;
      roster, fits := RosterFromInternal(members.vs);
    }

    /** The block of a height with a pointer to it. The pointer is always found. */
    method HistoricalBlockAtHeight(atHeight: nat) returns (r: Option<(Block, FatPointer)>)
      requires Valid()
      ensures r.Some? <==> 1 <= atHeight <= |bftBlocks|
      ensures r.Some? ==> ValidFatPointer(r.value.1)
      ensures r.Some? ==> r.value.0.height == atHeight && PointsAtBlockHash(r.value.1) == hash(r.value.0)
    {
      if atHeight == 0 || atHeight - 1 >= |bftBlocks| {
        return None;
      }
      PointerNamesBlock(hash, bftBlocks, fatPointerToTip, atHeight);
      var pointer := FatPointerToBlockAtHeight(bftBlocks, fatPointerToTip, atHeight);
      r := Some((bftBlocks[atHeight - 1], pointer.value));
    }
  }

  lemma {:induction false} SegmentEmpty(best: seq<PowBlock>, from: nat)
    requires from <= |best|
    ensures Segment(best, from, from) == [] && forall m :: Paid(m, []) == m
  {
  }

  /** A whole run from an empty log. It returns normally exactly if every decision is acceptable at its place, and is
    * then a run of decisions. */
  method Run(hash: Block -> Bytes, members: Members, decisions: seq<Decision>, ghost heightOf: Hash -> nat)
    returns (panicked: bool, service: TflServiceInternal)
    requires HashSound(hash) && forall i :: 0 <= i < |decisions| ==> ValidDecision(heightOf, decisions[i])
    ensures var start := Start(members);
            && ValidFatPointer(start.tip)
            && (!panicked <==> Runs(hash, heightOf, start, decisions))
            && (!panicked <==> AllAcceptable(hash, heightOf, start, decisions))
            && (!panicked ==> service.Valid() && service.hash == hash
                              && service.Abs() == After(hash, heightOf, start, decisions))
  {
    service := new TflServiceInternal(hash, members);
    ghost var start := service.Abs();
    hide Runs, After, CanDecide, Decide, AllAcceptable;
    RunsExactly(hash, heightOf, start, decisions);
    panicked := false;
    RunsNone(hash, heightOf, start);
    assert decisions[..0] == [];
    for i := 0 to |decisions|
      invariant fresh(service) && service.Valid() && service.hash == hash && !panicked
      invariant Runs(hash, heightOf, start, decisions[..i])
      invariant service.Abs() == After(hash, heightOf, start, decisions[..i])
    {
      RunsNext(hash, heightOf, start, decisions, i);
      var roster;
      panicked, roster := service.NewDecided(decisions[i], heightOf);
      if panicked {
        return;
      }
    }
    assert decisions[..|decisions|] == decisions;
  }

  /** A run goes on exactly if its next decision can be taken. */
  lemma {:induction false} RunsNext(hash: Block -> Bytes, heightOf: Hash -> nat, s: State, ds: seq<Decision>, k: nat)
    requires ValidFatPointer(s.tip) && k < |ds| && Runs(hash, heightOf, s, ds[..k]) && ValidDecision(heightOf, ds[k])
    requires ValidFatPointer(After(hash, heightOf, s, ds[..k]).tip)
    ensures var s' := After(hash, heightOf, s, ds[..k]);
            && (Runs(hash, heightOf, s, ds[..k + 1]) <==> CanDecide(hash, s', ds[k]))
            && (CanDecide(hash, s', ds[k]) ==> After(hash, heightOf, s, ds[..k + 1]) == Decide(s', ds[k]))
            && (Runs(hash, heightOf, s, ds) ==> CanDecide(hash, s', ds[k]))
    decreases k
  {
    hide ValidBest, NewlyFinal, Paid, PointsAtBlockHash, ValidFatPointer;
    assert ds[..k + 1][0] == ds[0];
    if k == 0 {
      assert ds[..1][1..] == [] && ds[..0] == [];
    } else {
      assert ds[..k][0] == ds[0];
      assert ds[..k][1..] == ds[1..][..k - 1] && ds[..k + 1][1..] == ds[1..][..k];
      RunsNext(hash, heightOf, Decide(s, ds[0]), ds[1..], k - 1);
    }
  }
}
