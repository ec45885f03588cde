/** Runs of the finality state machine against what the state service promises: when rewards are exact although every
  * candidate is finalized, and runs that reward blocks twice, or blocks that are not final. */
module FinalityRuns {
  import opened BftBlocks
  import opened Bytes
  import opened FatPointers
  import opened Finality
  import opened Options
  import opened PowChain
  import opened Rewards
  import opened Roster

  // -------------------------------------------------------------------------
  // A state service that finalizes every candidate.

  /** The best chain up to the block that the state has just finalized. */
  ghost function FinalPart(d: Decision): seq<PowBlock> {
    if d.response.Finalized? && HeightByHash(d.best, d.response.hash).Some?
    then d.best[..HeightByHash(d.best, d.response.hash).value + 1]
    else []
  }

  /** What the state has finalized stays on every later best chain. */
  ghost predicate StateKeeps(ds: seq<Decision>) {
    forall i, j :: 0 <= i < j < |ds| && ds[i].response.Finalized? ==> FinalPart(ds[i]) <= ds[j].best
  }

  ghost predicate AllFinalized(ds: seq<Decision>) {
    forall i :: 0 <= i < |ds| ==> ds[i].response.Finalized?
  }

  /** A final block is on the best chains of a run. */
  ghost predicate StaysOnBest(final: Option<(nat, Hash)>, ds: seq<Decision>) {
    final.Some? ==> forall i :: 0 <= i < |ds| ==> HeightByHash(ds[i].best, final.value.1).Some?
  }

  /** No candidate of a run is below the one before. */
  ghost predicate NeverFalls(final: Option<(nat, Hash)>, ds: seq<Decision>)
    requires forall i :: 0 <= i < |ds| ==> HasCandidate(ds[i])
    decreases |ds|
  {
    ds == [] ||
    ((final.None? || final.value.0 <= Candidate(ds[0]).0) && NeverFalls(Some(Candidate(ds[0])), ds[1..]))
  }

  /** A candidate that the state has finalized is on the best chains of the rest of the run. */
  lemma {:induction false} FinalizedStays(hash: Block -> Bytes, heightOf: Hash -> nat, s: State, ds: seq<Decision>)
    requires ValidFatPointer(s.tip) && Runs(hash, heightOf, s, ds) && ds != []
    requires StateKeeps(ds) && AllFinalized(ds)
    ensures HasCandidate(ds[0]) && HeightByHash(ds[0].best, Candidate(ds[0]).1).Some?
    ensures StaysOnBest(Some(Candidate(ds[0])), ds[1..]) && StateKeeps(ds[1..]) && AllFinalized(ds[1..])
  {
    RunFirst(hash, heightOf, s, ds);
    assert ds[0].response == Finalized(Candidate(ds[0]).1);
    hide ValidFatPointer, PointsAtBlockHash, HeightByHash, ValidBest, Decide, Runs, FinalPart;
    KeptBlock(ds, Candidate(ds[0]).1);
    var rest := ds[1..];
    forall i, j | 0 <= i < j < |rest| && rest[i].response.Finalized? ensures FinalPart(rest[i]) <= rest[j].best {
      assert rest[i] == ds[i + 1] && rest[j] == ds[j + 1];
    }
    forall i | 0 <= i < |rest| ensures rest[i].response.Finalized? {
      assert rest[i] == ds[i + 1];
    }
  }

  lemma {:induction false} KeptBlock(ds: seq<Decision>, h: Hash)
    requires ds != [] && StateKeeps(ds) && ds[0].response == Finalized(h) && HeightByHash(ds[0].best, h).Some?
    ensures forall i :: 0 <= i < |ds[1..]| ==> HeightByHash(ds[1..][i].best, h).Some?
  {
    hide HeightByHash;
    var k := HeightByHash(ds[0].best, h).value;
    forall i | 0 <= i < |ds[1..]| ensures HeightByHash(ds[1..][i].best, h).Some? {
      assert FinalPart(ds[0]) <= ds[i + 1].best;
      assert ds[i + 1].best[k] == FinalPart(ds[0])[k] == ds[0].best[k];
    }
  }

  /** With the last final block and the candidate on the best chain, continuing means not going down. */
  lemma {:induction false} ContinuesUp(heightOf: Hash -> nat, final: Option<(nat, Hash)>, d: Decision)
    requires ValidDecision(heightOf, d) && HasCandidate(d) && HeightByHash(d.best, Candidate(d).1).Some?
    requires final.Some? ==> final.value.0 == heightOf(final.value.1) && HeightByHash(d.best, final.value.1).Some?
    ensures Continues(final, d) <==> final.None? || final.value.0 <= Candidate(d).0
  {
    hide HeightByHash;
  }

  /** If the state finalizes every candidate and keeps what it has finalized, then from any exact state every block up
    * to the latest final one stays rewarded exactly once and in height order after every decision, if and only if the
    * heights of the candidates never fall. */
  lemma {:induction false} ExactIfNeverFalling(hash: Block -> Bytes, heightOf: Hash -> nat, s: State, ds: seq<Decision>)
    requires ValidFatPointer(s.tip) && Runs(hash, heightOf, s, ds) && StateKeeps(ds) && AllFinalized(ds)
    requires Exact(s) && (s.final.Some? ==> s.final.value.0 == heightOf(s.final.value.1)) && StaysOnBest(s.final, ds)
    ensures forall i :: 0 <= i < |ds| ==> HasCandidate(ds[i])
    ensures AlwaysExact(s, ds) <==> NeverFalls(s.final, ds)
  {
    ExactThroughout(hash, heightOf, s, ds);
    hide Runs, ValidFatPointer, Exact, AlwaysExact, AllContinue, NeverFalls;
    ContinuesIfNeverFalling(hash, heightOf, s, ds);
  }

  lemma {:induction false} ContinuesIfNeverFalling(hash: Block -> Bytes, heightOf: Hash -> nat, s: State,
                                                   ds: seq<Decision>)
    requires ValidFatPointer(s.tip) && Runs(hash, heightOf, s, ds) && StateKeeps(ds) && AllFinalized(ds)
    requires s.final.Some? ==> s.final.value.0 == heightOf(s.final.value.1)
    requires StaysOnBest(s.final, ds)
    ensures forall i :: 0 <= i < |ds| ==> HasCandidate(ds[i])
    ensures AllContinue(s.final, ds) <==> NeverFalls(s.final, ds)
    decreases |ds|
  {
    RunHasCandidates(hash, heightOf, s, ds);
    if ds == [] {
    } else {
      RunFirst(hash, heightOf, s, ds);
      FinalizedStays(hash, heightOf, s, ds);
      ContinuesUp(heightOf, s.final, ds[0]);
      assert Candidate(ds[0]).0 == heightOf(Candidate(ds[0]).1);
      var next := Decide(s, ds[0]);
      assert next.final == Some(Candidate(ds[0])) && next.tip == ds[0].pointer;
      hide Runs, ValidFatPointer, Decide, Continues, HeightByHash, StateKeeps, AllFinalized, ValidDecision, CanDecide;
      ContinuesIfNeverFalling(hash, heightOf, next, ds[1..]);
    }
  }

  // -------------------------------------------------------------------------
  // Runs that reward blocks twice, or blocks that are not final.

  lemma {:induction false} RunsOne(hash: Block -> Bytes, heightOf: Hash -> nat, s: State, d: Decision)
    requires ValidFatPointer(s.tip) && Runs(hash, heightOf, s, [d])
    ensures ValidDecision(heightOf, d) && HasCandidate(d) && After(hash, heightOf, s, [d]) == Decide(s, d)
  {
    hide ValidDecision, Decide, ValidFatPointer;
    assert [d][1..] == [];
  }

  lemma {:induction false} RunsTwo(hash: Block -> Bytes, heightOf: Hash -> nat, s: State, a: Decision, b: Decision)
    requires ValidFatPointer(s.tip) && Runs(hash, heightOf, s, [a, b])
    ensures ValidDecision(heightOf, a) && ValidDecision(heightOf, b) && HasCandidate(a) && HasCandidate(b)
    ensures After(hash, heightOf, s, [a, b]) == Decide(Decide(s, a), b)
  {
    hide ValidFatPointer, ValidBest, Paid, NewlyFinal;
    assert [a, b][1..] == [b];
    RunsOne(hash, heightOf, Decide(s, a), b);
  }

  /** Whenever two decisions are taken that go back to a lower candidate of the best chain and then forward
    * again to the last final block, the blocks in between are rewarded once more. */
  lemma {:induction false} GoingBackPaysTwice(hash: Block -> Bytes, heightOf: Hash -> nat, s: State,
                                              back: Decision, forth: Decision)
    requires ValidFatPointer(s.tip) && Runs(hash, heightOf, s, [back, forth])
    requires HasCandidate(back) && HasCandidate(forth)
    requires back.best == forth.best && s.final == Some(Candidate(forth))
    requires HeightByHash(back.best, Candidate(back).1).Some? && HeightByHash(back.best, Candidate(forth).1).Some?
    requires Candidate(back).0 < Candidate(forth).0
    ensures var low, high := Candidate(back).0, Candidate(forth).0;
            && high < |back.best|
            && After(hash, heightOf, s, [back, forth]).rewarded ==
               s.rewarded + Segment(back.best, low + 1, high + 1)
  {
    RunsTwo(hash, heightOf, s, back, forth);
    hide Runs, After, Decide, Segment, ValidDecision, ValidFatPointer, HeightByHash;
    BackAndForth(heightOf, s, back, forth);
  }

  lemma {:induction false} BackAndForth(heightOf: Hash -> nat, s: State, back: Decision, forth: Decision)
    requires ValidDecision(heightOf, back) && HasCandidate(back)
    requires ValidDecision(heightOf, forth) && HasCandidate(forth)
    requires back.best == forth.best && s.final == Some(Candidate(forth))
    requires HeightByHash(back.best, Candidate(back).1).Some? && HeightByHash(back.best, Candidate(forth).1).Some?
    requires Candidate(back).0 < Candidate(forth).0
    ensures var low, high := Candidate(back).0, Candidate(forth).0;
            && high < |back.best|
            && Decide(Decide(s, back), forth).rewarded == s.rewarded + Segment(back.best, low + 1, high + 1)
  {
    var high, low := Candidate(forth), Candidate(back);
    assert high.0 == heightOf(high.1);
    hide Decide, HeightByHash, ValidDecision, Segment;
    Goes(heightOf, s, back, high);
    Goes(heightOf, Decide(s, back), forth, low);
    assert s.rewarded + [] == s.rewarded;
  }

  /** Deciding a candidate of the best chain when the last final block is on it, too. */
  lemma {:induction false} Goes(heightOf: Hash -> nat, s: State, d: Decision, from: (nat, Hash))
    requires ValidDecision(heightOf, d) && HasCandidate(d)
    requires s.final == Some(from) && from.0 == heightOf(from.1)
    requires HeightByHash(d.best, from.1).Some? && HeightByHash(d.best, Candidate(d).1).Some?
    ensures var s', to := Decide(s, d), Candidate(d);
            && s'.final == Some(to) && to.0 == heightOf(to.1) && from.0 < |d.best| && to.0 < |d.best|
            && s'.rewarded == s.rewarded + if to.0 < from.0 then [] else Segment(d.best, from.0 + 1, to.0 + 1)
  {
    NewlyFinalCases(heightOf, s.final, d);
    hide NewlyFinal, Paid, HeightByHash, ValidDecision, Segment;
  }

  /** Whenever a decision is taken whose candidate is known but not on the best chain, the state has failed to finalize
    * it, and the best chain is rewarded up to its tip. */
  lemma {:induction false} SideChainPaysToTip(hash: Block -> Bytes, heightOf: Hash -> nat, s: State, d: Decision)
    requires ValidFatPointer(s.tip) && Runs(hash, heightOf, s, [d]) && HasCandidate(d)
    requires s.final.Some? && s.final.value.0 == heightOf(s.final.value.1) <= Candidate(d).0
    requires HeightByHash(d.best, s.final.value.1).Some? && HeightByHash(d.best, Candidate(d).1).None?
    ensures d.response.FinalizeFailed? && s.final.value.0 < |d.best|
    ensures After(hash, heightOf, s, [d]).rewarded ==
            s.rewarded + Segment(d.best, s.final.value.0 + 1, |d.best|)
  {
    RunsOne(hash, heightOf, s, d);
    assert CanDecide(hash, s, d);
    hide Runs, After, NewlyFinal, Paid, HeightByHash, ValidFatPointer;
    NewlyFinalCases(heightOf, s.final, d);
  }

  function SampleHash(b: Block): Bytes {
    seq<Byte>(32, i => if b.headers == [] then 1 else 2)
  }

  lemma {:induction false} SampleHashSound()
    ensures HashSound(SampleHash)
  {
    forall b: Block ensures |SampleHash(b)| == 32 && SampleHash(b) != Zeros(32) {
      assert SampleHash(b)[0] != Zeros(32)[0];
    }
    forall b: Block, i: nat | b.headers != [] ensures SampleHash(b) != SampleHash(Placeholder(i)) {
      assert SampleHash(b)[0] == 2 && SampleHash(Placeholder(i))[0] == 1;
    }
  }

  /** A best chain of two blocks, with hashes 1 and 2. Hash 3 is a block on a side chain, at height 1. */
  function SampleBest(): seq<PowBlock> {
    [PowBlock(1, NO_PARENT, []), PowBlock(2, 1, [])]
  }

  function SampleHeight(h: Hash): nat {
    if h == 2 || h == 3 then 1 else 0
  }

  /** The next BFT block, with a given candidate. The state finalizes blocks of the best chain. */
  function Sample(hash: Block -> Bytes, s: State, candidate: Hash): Decision {
    var block := BftBlock(0, |s.log| + 1, s.tip, 0, [Header(candidate)]);
    Decision(block, FatPointer(hash(block) + Zeros(12), []), true, map[1 := 0, 2 := 1, 3 := 1],
             if candidate == 3 then FinalizeFailed else Finalized(candidate), SampleBest(), 1)
  }

  predicate IsSample(h: Hash) {
    h == 1 || h == 2 || h == 3
  }

  /** From any state each of the three candidates can be decided next. */
  lemma {:induction false} SampleDecides(hash: Block -> Bytes, s: State, candidate: Hash)
    requires HashSound(hash) && ValidFatPointer(s.tip) && IsSample(candidate)
    ensures var d := Sample(hash, s, candidate);
            && ValidDecision(SampleHeight, d) && CanDecide(hash, s, d)
            && Candidate(d) == (SampleHeight(candidate), candidate)
  {
    var d := Sample(hash, s, candidate);
    assert d.pointer.template[..32] == hash(d.block);
    SampleHeights();
    hide HeightByHash;
  }

  /** The run that decides the given candidates in turn. */
  ghost function SampleRun(hash: Block -> Bytes, s: State, candidates: seq<Hash>): seq<Decision>
    requires forall i :: 0 <= i < |candidates| ==> IsSample(candidates[i])
    decreases |candidates|
  {
    if candidates == [] then []
    else
      assert IsSample(candidates[0]);
      var d := Sample(hash, s, candidates[0]);
      [d] + SampleRun(hash, Decide(s, d), candidates[1..])
  }

  lemma {:induction false} SampleRuns(hash: Block -> Bytes, s: State, candidates: seq<Hash>)
    requires HashSound(hash) && ValidFatPointer(s.tip)
    requires forall i :: 0 <= i < |candidates| ==> IsSample(candidates[i])
    ensures Runs(hash, SampleHeight, s, SampleRun(hash, s, candidates))
    ensures candidates != [] ==>
              var d := Sample(hash, s, candidates[0]);
              && HasCandidate(d) && ValidFatPointer(d.pointer)
              && Runs(hash, SampleHeight, Decide(s, d), SampleRun(hash, Decide(s, d), candidates[1..]))
              && After(hash, SampleHeight, s, SampleRun(hash, s, candidates)) ==
                 After(hash, SampleHeight, Decide(s, d), SampleRun(hash, Decide(s, d), candidates[1..]))
    decreases |candidates|
  {
    if candidates == [] {
    } else {
      var d := Sample(hash, s, candidates[0]);
      SampleDecides(hash, s, candidates[0]);
      hide Sample, CanDecide, ValidDecision, HashSound;
      assert CanDecide(hash, s, d) && ValidDecision(SampleHeight, d);
      SampleRuns(hash, Decide(s, d), candidates[1..]);
      var rest := SampleRun(hash, Decide(s, d), candidates[1..]);
      assert ([d] + rest)[1..] == rest;
    }
  }

  /** What one more sample decision rewards. */
  lemma {:induction false} SampleRewards(hash: Block -> Bytes, s: State, candidate: Hash)
    requires HashSound(hash) && ValidFatPointer(s.tip) && IsSample(candidate)
    requires s.final.Some? ==> s.final.value == (SampleHeight(s.final.value.1), s.final.value.1)
    ensures HasCandidate(Sample(hash, s, candidate))
    ensures var s' := Decide(s, Sample(hash, s, candidate));
            && ValidFatPointer(s'.tip) && s'.final == Some((SampleHeight(candidate), candidate))
            && (s.final.None? && candidate != 3 ==>
                  s'.rewarded == s.rewarded + [(SampleHeight(candidate), SampleBest()[SampleHeight(candidate)])])
            && (s.final == Some((1, 2)) && candidate == 1 ==> s'.rewarded == s.rewarded)
            && (s.final == Some((0, 1)) && candidate != 1 ==> s'.rewarded == s.rewarded + [(1, SampleBest()[1])])
  {
    SampleDecides(hash, s, candidate);
    var d := Sample(hash, s, candidate);
    NewlyFinalCases(SampleHeight, s.final, d);
    SampleHeights();
    hide HashSound, ValidFatPointer, NewlyFinal, Paid, HeightByHash;
    assert Segment(SampleBest(), 1, 2) == [(1, SampleBest()[1])];
  }

  lemma {:induction false} SampleHeights()
    ensures HeightByHash(SampleBest(), 1) == Some(0) && HeightByHash(SampleBest(), 2) == Some(1)
    ensures HeightByHash(SampleBest(), 3) == None
  {
    HeightIsIndex(SampleBest(), 0);
    HeightIsIndex(SampleBest(), 1);
  }

  /** The state keeps what it has finalized over every sample run, and finalizes all candidates of the best chain. */
  lemma {:induction false} SampleRunOracle(hash: Block -> Bytes, s: State, candidates: seq<Hash>)
    requires forall i :: 0 <= i < |candidates| ==> IsSample(candidates[i])
    ensures StateKeeps(SampleRun(hash, s, candidates))
    ensures (forall i :: 0 <= i < |candidates| ==> candidates[i] != 3) ==> AllFinalized(SampleRun(hash, s, candidates))
  {
    var ds := SampleRun(hash, s, candidates);
    forall i | 0 <= i < |ds|
      ensures i < |candidates| && ds[i].best == SampleBest() && (candidates[i] != 3 ==> ds[i].response.Finalized?)
    {
      SampleRunAt(hash, s, candidates, i);
    }
    hide SampleRun;
    forall i, j | 0 <= i < j < |ds| && ds[i].response.Finalized? ensures FinalPart(ds[i]) <= ds[j].best {
    }
  }

  lemma {:induction false} SampleRunAt(hash: Block -> Bytes, s: State, candidates: seq<Hash>, i: nat)
    requires forall k :: 0 <= k < |candidates| ==> IsSample(candidates[k])
    requires i < |SampleRun(hash, s, candidates)|
    ensures i < |candidates| && SampleRun(hash, s, candidates)[i].best == SampleBest()
    ensures candidates[i] != 3 ==> SampleRun(hash, s, candidates)[i].response.Finalized?
    decreases |candidates|
  {
    hide Decide;
    assert IsSample(candidates[0]);
    if i == 0 {
    } else {
      var d := Sample(hash, s, candidates[0]);
      SampleRunAt(hash, Decide(s, d), candidates[1..], i - 1);
    }
  }

  /** From an empty log there is a run that decides candidate 2, goes back to candidate 1 and forward again,
    * and rewards the block at height 1 twice, although the state finalizes every candidate and keeps what it has
    * finalized. */
  lemma {:induction false} TwiceFromStart(hash: Block -> Bytes, members: Members)
    requires HashSound(hash)
    ensures var s, ds := Start(members), SampleRun(hash, Start(members), [2, 1, 2]);
            && ValidFatPointer(s.tip) && Runs(hash, SampleHeight, s, ds)
            && StateKeeps(ds) && AllFinalized(ds)
            && After(hash, SampleHeight, s, ds).rewarded == [(1, SampleBest()[1]), (1, SampleBest()[1])]
            && !Exact(After(hash, SampleHeight, s, ds))
  {
    hide HashSound, Decide, Sample, ValidFatPointer, Linked;
    var s0 := Start(members);
    StartValid(members);
    SampleRewards(hash, s0, 2);
    var s1 := Decide(s0, Sample(hash, s0, 2));
    SampleRewards(hash, s1, 1);
    var s2 := Decide(s1, Sample(hash, s1, 1));
    SampleRewards(hash, s2, 2);
    SampleThree(hash, s0, 2, 1, 2);
    SampleRunOracle(hash, s0, [2, 1, 2]);
    var b := (1, SampleBest()[1]);
    NotLinked(b.0, b.1, b.0, b.1);
  }

  /** From an empty log there is a run that decides candidate 1 and then the side-chain block 3, which the state fails
    * to finalize, and rewards block 2, which is not final. */
  lemma {:induction false} SideFromStart(hash: Block -> Bytes, members: Members)
    requires HashSound(hash)
    ensures var s, ds := Start(members), SampleRun(hash, Start(members), [1, 3]);
            && ValidFatPointer(s.tip) && Runs(hash, SampleHeight, s, ds)
            && StateKeeps(ds) && After(hash, SampleHeight, s, ds).final == Some((1, 3))
            && After(hash, SampleHeight, s, ds).rewarded == [(0, SampleBest()[0]), (1, SampleBest()[1])]
            && !Exact(After(hash, SampleHeight, s, ds))
  {
    hide HashSound, Decide, Sample, ValidFatPointer, Linked;
    var s0 := Start(members);
    StartValid(members);
    SampleRewards(hash, s0, 1);
    var s1 := Decide(s0, Sample(hash, s0, 1));
    SampleRewards(hash, s1, 3);
    SampleTwo(hash, s0, 1, 3);
    SampleRunOracle(hash, s0, [1, 3]);
  }

  lemma {:induction false} NotLinked(h: nat, b: PowBlock, h': nat, b': PowBlock)
    requires h' != h + 1
    ensures !Linked([(h, b), (h', b')])
  {
    var blocks := [(h, b), (h', b')];
    assert blocks[0].0 == h && blocks[1].0 == h';
  }

  lemma {:induction false} SampleTwo(hash: Block -> Bytes, s: State, a: Hash, b: Hash)
    requires HashSound(hash) && ValidFatPointer(s.tip) && IsSample(a) && IsSample(b)
    ensures HasCandidate(Sample(hash, s, a)) && HasCandidate(Sample(hash, Decide(s, Sample(hash, s, a)), b))
    ensures var s1, ds := Decide(s, Sample(hash, s, a)), SampleRun(hash, s, [a, b]);
            Runs(hash, SampleHeight, s, ds) && After(hash, SampleHeight, s, ds) == Decide(s1, Sample(hash, s1, b))
  {
    SampleRuns(hash, s, [a, b]);
    SampleDecides(hash, s, a);
    var s1 := Decide(s, Sample(hash, s, a));
    SampleRuns(hash, s1, [b]);
    SampleDecides(hash, s1, b);
    hide Runs, HashSound, Sample;
    assert [a, b][1..] == [b] && [b][1..] == [];
  }

  lemma {:induction false} SampleThree(hash: Block -> Bytes, s: State, a: Hash, b: Hash, c: Hash)
    requires HashSound(hash) && ValidFatPointer(s.tip) && IsSample(a) && IsSample(b) && IsSample(c)
    requires HasCandidate(Sample(hash, s, a))
    requires HasCandidate(Sample(hash, Decide(s, Sample(hash, s, a)), b))
    ensures var s1 := Decide(s, Sample(hash, s, a));
            var s2 := Decide(s1, Sample(hash, s1, b));
            var ds := SampleRun(hash, s, [a, b, c]);
            && Runs(hash, SampleHeight, s, ds) && HasCandidate(Sample(hash, s2, c))
            && After(hash, SampleHeight, s, ds) == Decide(s2, Sample(hash, s2, c))
  {
    SampleRuns(hash, s, [a, b, c]);
    hide Runs, After, HashSound, Sample, ValidFatPointer, SampleRun;
    var s1 := Decide(s, Sample(hash, s, a));
    assert [a, b, c][1..] == [b, c];
    SampleTwo(hash, s1, b, c);
  }
}
