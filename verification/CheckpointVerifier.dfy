/** The checkpoint verifier: blocks wait in a queue until an unbroken run of heights reaches a
  * checkpoint, and are then verified backwards along the hash chain. */
module CheckpointVerifier {
  import opened CheckpointAnswers
  import opened CheckpointRanges
  import opened CheckpointReach
  import opened CheckpointTypes
  import opened Options

  // -------------------------------------------------------------------------
  // Request accounting.

  /** The side-chain blocks of a list are answered with an error; nothing else changes. */
  ghost predicate SideChained(list: seq<QueuedBlock>, expected: Hash, before: map<nat, Reply<Hash>>,
                              after: map<nat, Reply<Hash>>) {
    && (forall b :: b in list && b.block.hash != expected ==>
          b.tx in after && after[b.tx] == Err(UnexpectedSideChain(expected, b.block.hash)))
    && (forall tx :: tx in before ==> tx in after && after[tx] == before[tx])
    && (forall tx :: tx in after && tx !in before ==>
          exists b :: b in list && b.block.hash != expected && b.tx == tx)
  }

  /** Answering the side-chain blocks of one height and keeping the rest keeps all requests accounted for. */
  lemma {:induction false} AccountedStep(q: Queue, accepted: map<nat, QueuedBlock>, before: map<nat, Reply<Hash>>,
                                         after: map<nat, Reply<Hash>>, h: nat, expected: Hash, q': Queue)
    requires Accounted(q, accepted, before) && h in q && DistinctHashes(q[h])
    requires SideChained(q[h], expected, before, after)
    requires q' == match Match(q[h], expected) { case None => q - {h} case Some(b) => q[h := [b]] }
    ensures Accounted(q', accepted, after)
  {
    hide Match, DistinctHashes;
    var list, m := q[h], Match(q[h], expected);
    forall g, b | g in q' && b in q'[g]
      ensures b.block.height == g && b.tx in accepted && accepted[b.tx] == b && b.tx !in after
    {
      if g == h {
        assert b == m.value && b in q[h];
      } else {
        assert b in q[g];
      }
    }
    forall tx | tx in accepted && tx !in after
      ensures Waiting(q', accepted[tx])
    {
      AccountedKept(q, accepted, before, after, h, expected, q', tx);
    }
  }

  lemma {:induction false} AccountedKept(q: Queue, accepted: map<nat, QueuedBlock>, before: map<nat, Reply<Hash>>,
                                         after: map<nat, Reply<Hash>>, h: nat, expected: Hash, q': Queue, tx: nat)
    requires Accounted(q, accepted, before) && h in q && DistinctHashes(q[h])
    requires SideChained(q[h], expected, before, after)
    requires q' == match Match(q[h], expected) { case None => q - {h} case Some(b) => q[h := [b]] }
    requires tx in accepted && tx !in after
    ensures Waiting(q', accepted[tx])
  {
    hide Match, DistinctHashes;
    assert Waiting(q, accepted[tx]);
    var b, m := accepted[tx], Match(q[h], expected);
    if b.block.height == h {
      assert m.Some?;
      SameHash(q[h], b, m.value);
    }
  }

  lemma {:induction false} SameHash(list: seq<QueuedBlock>, a: QueuedBlock, b: QueuedBlock)
    requires DistinctHashes(list) && a in list && b in list && a.block.hash == b.block.hash
    ensures a == b
  {
  }

  /** Answering the only block of a height removes it. */
  lemma {:induction false} AccountedAnswer(q: Queue, accepted: map<nat, QueuedBlock>, answered: map<nat, Reply<Hash>>,
                                           h: nat, b: QueuedBlock, r: Reply<Hash>)
    requires Accounted(q, accepted, answered) && h in q && q[h] == [b]
    ensures b.tx !in answered && Accounted(q - {h}, accepted, answered[b.tx := r])
    ensures b.tx in accepted && accepted[b.tx] == b
  {
    assert b in q[h];
    var q': Queue := q - {h};
    var answered' := answered[b.tx := r];
    forall g, c | g in q' && c in q'[g]
      ensures c.block.height == g && c.tx in accepted && accepted[c.tx] == c && c.tx !in answered'
    {
      assert c in q[g];
    }
    forall tx | tx in accepted && tx !in answered'
      ensures Waiting(q', accepted[tx])
    {
      assert Waiting(q, accepted[tx]);
    }
  }

  /** Answering the first block of a list removes it. */
  lemma {:induction false} AccountedPop(q: Queue, accepted: map<nat, QueuedBlock>, answered: map<nat, Reply<Hash>>,
                                        h: nat, r: Reply<Hash>)
    requires Accounted(q, accepted, answered) && h in q && q[h] != [] && DistinctHashes(q[h])
    ensures var b := q[h][0];
            b.tx !in answered && Accounted(q[h := q[h][1..]], accepted, answered[b.tx := r])
  {
    var b := q[h][0];
    var q': Queue := q[h := q[h][1..]];
    var answered' := answered[b.tx := r];
    assert b in q[h];
    forall g, c | g in q' && c in q'[g]
      ensures c.block.height == g && c.tx in accepted && accepted[c.tx] == c && c.tx !in answered'
    {
      assert c in q[g];
      if g == h {
        var j :| 0 <= j < |q[h][1..]| && q[h][1..][j] == c;
        assert q[h][j + 1] == c;
      }
    }
    forall tx | tx in accepted && tx !in answered'
      ensures Waiting(q', accepted[tx])
    {
      assert Waiting(q, accepted[tx]);
      if accepted[tx].block.height == h {
        var j :| 0 <= j < |q[h]| && q[h][j] == accepted[tx];
        assert q'[h][j - 1] == accepted[tx];
      }
    }
  }

  /** Every request has the answer it had before, or was dropped. */
  ghost predicate AnsweredOrDropped(accepted: map<nat, QueuedBlock>, before: map<nat, Reply<Hash>>,
                                    after: map<nat, Reply<Hash>>) {
    forall tx :: tx in accepted ==> tx in after && after[tx] == if tx in before then before[tx] else Err(Dropped)
  }

  /** With an empty queue every accepted request has been answered. */
  lemma {:induction false} AllAnswered(accepted: map<nat, QueuedBlock>, answered: map<nat, Reply<Hash>>)
    requires Accounted(map[], accepted, answered)
    ensures answered.Keys == accepted.Keys
  {
    forall tx | tx in accepted ensures tx in answered {
    }
  }

  lemma {:induction false} AccountedWithoutEmpty(q: Queue, accepted: map<nat, QueuedBlock>,
                                                 answered: map<nat, Reply<Hash>>, h: nat)
    requires Accounted(q, accepted, answered) && h in q && q[h] == []
    ensures Accounted(q - {h}, accepted, answered)
  {
    var q': Queue := q - {h};
    forall tx | tx in accepted && tx !in answered
      ensures Waiting(q', accepted[tx])
    {
      assert Waiting(q, accepted[tx]);
    }
  }

  /** The requests answered with success, in the order their answers were sent. */
  ghost predicate OkLogged(okLog: seq<QueuedBlock>, answered: map<nat, Reply<Hash>>) {
    && (forall i :: 0 <= i < |okLog| ==> okLog[i].tx in answered && answered[okLog[i].tx] == Ok(okLog[i].block.hash))
    && (forall i, j :: 0 <= i < j < |okLog| ==> okLog[i].tx != okLog[j].tx)
    && (forall tx :: tx in answered && answered[tx].Ok? ==> exists i :: 0 <= i < |okLog| && okLog[i].tx == tx)
  }

  lemma {:induction false} OkLoggedAppend(okLog: seq<QueuedBlock>, answered: map<nat, Reply<Hash>>, b: QueuedBlock)
    requires OkLogged(okLog, answered) && b.tx !in answered
    ensures OkLogged(okLog + [b], answered[b.tx := Ok(b.block.hash)])
  {
    var okLog', answered' := okLog + [b], answered[b.tx := Ok(b.block.hash)];
    forall tx | tx in answered' && answered'[tx].Ok?
      ensures exists i :: 0 <= i < |okLog'| && okLog'[i].tx == tx
    {
      if tx == b.tx {
        assert okLog'[|okLog|].tx == tx;
      } else {
        var i :| 0 <= i < |okLog| && okLog[i].tx == tx;
        assert okLog'[i].tx == tx;
      }
    }
  }

  /** A narrowed queue once the lowest blocks of the range, all but `i` of them, are answered. */
  ghost function Rest(q: Queue, low: int, top: int, held: seq<QueuedBlock>, i: nat): (r: Queue)
    requires |held| == top - low
  {
    map h | h in q && !(low < h <= top - i) :: if low < h <= top then [held[top - h]] else q[h]
  }

  lemma {:induction false} RestEnds(q: Queue, low: int, top: int, held: seq<QueuedBlock>)
    requires |held| == top - low
    ensures Rest(q, low, top, held, |held|) == Narrow(q, low, top, held)
    ensures Rest(q, low, top, held, 0) == Without(q, low, top)
  {
  }

  lemma {:induction false} RestStep(q: Queue, low: int, top: int, held: seq<QueuedBlock>, i: nat)
    requires |held| == top - low && i < |held| && -1 <= low && Covered(q, low, top)
    ensures var v := Rest(q, low, top, held, i + 1);
            top - i in v && v[top - i] == [held[i]] && v - {top - i} == Rest(q, low, top, held, i)
  {
  }

  /** The queue of a failed range once the lowest held blocks, all but `i` of them, are put back. */
  ghost function Restored(q: Queue, failed: nat, top: nat, held: seq<QueuedBlock>, i: nat): (r: Queue)
    requires |held| == top - failed
  {
    map h | h in q && h != failed && !(failed < h <= top && top - h < i) ::
      if failed < h <= top then [held[top - h]] else q[h]
  }

  lemma {:induction false} RestoredEnds(q: Queue, failed: nat, top: nat, held: seq<QueuedBlock>)
    requires |held| == top - failed
    ensures Restored(q, failed, top, held, |held|) == Without(q, failed - 1, top)
    ensures Restored(q, failed, top, held, 0) == Narrow(q, failed, top, held) - {failed}
  {
  }

  lemma {:induction false} RestoredStep(q: Queue, failed: nat, top: nat, held: seq<QueuedBlock>, i: nat)
    requires |held| == top - failed && i < |held| && Filed(q, top, held)
    ensures var v, h := Restored(q, failed, top, held, i + 1), held[i].block.height;
            h !in v && v[h := [held[i]]] == Restored(q, failed, top, held, i)
  {
    assert held[i].block.height == top - i;
  }

  /** Everything answered with success since the last reset is one chain, and progress is at its end. */
  ghost predicate Frontier(cps: Checkpoints, p: Progress, tipHash: Option<Hash>, baseHeight: int, baseHash: Hash,
                           bs: seq<Block>)
    requires ValidCheckpoints(cps)
  {
    && -1 <= baseHeight
    && ChainAbove(cps, baseHeight, baseHash, bs)
    && match p
       case BeforeGenesis => bs == [] && baseHeight == -1 && baseHash == GENESIS_PREVIOUS_BLOCK_HASH
       case InitialTip(h) => bs == [] && baseHeight == h && tipHash == Some(baseHash)
       case PreviousCheckpoint(h) => bs != [] && baseHeight + |bs| == h
       case FinalCheckpoint => if bs == [] then baseHeight >= MaxHeight(cps) else baseHeight + |bs| == MaxHeight(cps)
  }

  lemma {:induction false} FrontierHash(cps: Checkpoints, p: Progress, tipHash: Option<Hash>, baseHeight: int,
                                        baseHash: Hash, bs: seq<Block>)
    requires ValidProgress(cps, p, tipHash) && !p.FinalCheckpoint?
    requires Frontier(cps, p, tipHash, baseHeight, baseHash, bs)
    ensures PreviousHash(cps, p, tipHash) == TopHash(baseHash, bs)
    ensures Low(cps, p) == baseHeight + |bs|
  {
    if p.PreviousCheckpoint? {
      assert bs[|bs| - 1].height == p.height;
    }
  }

  /** A complete walk extends the verified chain up to the target checkpoint. */
  lemma {:induction false} FrontierAdvances(cps: Checkpoints, q: Queue, p: Progress, tipHash: Option<Hash>,
                                            baseHeight: int, baseHash: Hash, bs: seq<Block>, target: nat,
                                            held: seq<QueuedBlock>)
    requires ValidProgress(cps, p, tipHash) && !p.FinalCheckpoint?
    requires Frontier(cps, p, tipHash, baseHeight, baseHash, bs)
    requires target in cps && Low(cps, p) < target
    requires Held(q, cps, target, Low(cps, p), cps[target], PreviousHash(cps, p, tipHash), held)
    ensures Frontier(cps, Advanced(cps, target), None, baseHeight, baseHash, bs + Blocks(Reversed(held)))
  {
    FrontierHash(cps, p, tipHash, baseHeight, baseHash, bs);
    HeldIsChain(q, cps, target, Low(cps, p), cps[target], PreviousHash(cps, p, tipHash), held);
    ChainAppend(cps, baseHeight, baseHash, bs, Blocks(Reversed(held)));
  }

  // -------------------------------------------------------------------------
  // The walk over a range, step by step.

  /** The top `i` heights of the range are processed: `held` are their blocks on the chain,
    * and the queue `cur` no longer has them. */
  ghost predicate InRange(cps: Checkpoints, q: Queue, low: int, target: nat, i: nat, cur: Queue, expected: Hash,
                          held: seq<QueuedBlock>, accepted: map<nat, QueuedBlock>, answered: map<nat, Reply<Hash>>) {
    && ValidCheckpoints(cps) && ValidQueue(cps, q)
    && -1 <= low && IsTarget(cps, q, low, Checkpoint(target)) && i <= target - low
    && cur == Without(q, target - i, target)
    && Held(q, cps, target, target - i, cps[target], expected, held)
    && RangeWalk(cps, q, low, target) == Descend(q, cps, target - i, low, expected, held)
    && Accounted(Narrow(q, target - i, target, held), accepted, answered)
  }

  lemma {:induction false} InRangeStart(cps: Checkpoints, q: Queue, low: int, target: nat,
                                        accepted: map<nat, QueuedBlock>, answered: map<nat, Reply<Hash>>)
    requires ValidCheckpoints(cps) && ValidQueue(cps, q) && Accounted(q, accepted, answered)
    requires -1 <= low && IsTarget(cps, q, low, Checkpoint(target))
    ensures InRange(cps, q, low, target, 0, q, cps[target], [], accepted, answered)
  {
    assert Without(q, target, target) == q;
    assert Narrow(q, target, target, []) == q;
  }

  /** The range has one height per block. */
  lemma {:induction false} InRangeHeights(cps: Checkpoints, q: Queue, low: int, target: nat,
                                          accepted: map<nat, QueuedBlock>, answered: map<nat, Reply<Hash>>)
    requires target in cps && InRange(cps, q, low, target, 0, q, cps[target], [], accepted, answered)
    ensures -1 <= low < target && |HeightsDown(q, low, target)| == target - low
    ensures forall i :: 0 <= i < target - low ==> HeightsDown(q, low, target)[i] == target - i
  {
    TargetFacts(cps, q, low, target);
    hide HeightsDown;
  }

  /** The next height of the range has queued blocks, none of them answered. */
  lemma {:induction false} InRangeHeight(cps: Checkpoints, q: Queue, low: int, target: nat, i: nat, cur: Queue,
                                         expected: Hash, held: seq<QueuedBlock>, accepted: map<nat, QueuedBlock>,
                                         answered: map<nat, Reply<Hash>>)
    requires InRange(cps, q, low, target, i, cur, expected, held, accepted, answered) && i < target - low
    ensures target - i in cur && target - i in q && cur[target - i] == q[target - i]
    ensures ValidList(cur[target - i], target - i)
    ensures forall b :: b in cur[target - i] ==> b.tx in accepted && accepted[b.tx] == b && b.tx !in answered
  {
    hide Held, DistinctHashes, Accounted, Narrow, ValidList;
    HeldLength(q, cps, target, target - i, cps[target], expected, held);
    var h: nat := target - i;
    TargetFacts(cps, q, low, target);
    assert h in q && ValidList(q[h], h);
    NarrowLow(q, h, target, held);
    AccountedAt(Narrow(q, h, target, held), accepted, answered, h);
  }

  lemma {:induction false} NarrowLow(q: Queue, h: nat, top: nat, held: seq<QueuedBlock>)
    requires |held| == top - h && h in q
    ensures h in Narrow(q, h, top, held) && Narrow(q, h, top, held)[h] == q[h]
  {
  }

  lemma {:induction false} AccountedAt(q: Queue, accepted: map<nat, QueuedBlock>, answered: map<nat, Reply<Hash>>,
                                       h: nat)
    requires Accounted(q, accepted, answered) && h in q
    ensures forall b :: b in q[h] ==> b.tx in accepted && accepted[b.tx] == b && b.tx !in answered
  {
  }

  /** A height with a matching block extends what is held. */
  lemma {:induction false} InRangeNext(cps: Checkpoints, q: Queue, low: int, target: nat, i: nat, cur: Queue,
                                       expected: Hash, held: seq<QueuedBlock>, accepted: map<nat, QueuedBlock>,
                                       before: map<nat, Reply<Hash>>, after: map<nat, Reply<Hash>>, b: QueuedBlock)
    requires InRange(cps, q, low, target, i, cur, expected, held, accepted, before) && i < target - low
    requires target - i in q && SideChained(q[target - i], expected, before, after)
    requires !(target - i in cps && cps[target - i] != expected)
    requires Match(q[target - i], expected) == Some(b)
    ensures InRange(cps, q, low, target, i + 1, cur - {target - i}, b.block.prevHash, held + [b], accepted, after)
  {
    hide Held, Accounted, SideChained, DistinctHashes, Narrow, Without;
    HeldLength(q, cps, target, target - i, cps[target], expected, held);
    var h, v := target - i, Narrow(q, target - i, target, held);
    TargetFacts(cps, q, low, target);
    assert ValidList(q[h], h);
    NarrowStep(q, h, target, held, b);
    AccountedStep(v, accepted, before, after, h, expected, v[h := [b]]);
    WithoutStep(q, h, target);
    HeldNext(q, cps, target, h, cps[target], expected, held, b);
  }

  lemma {:induction false} NarrowStep(q: Queue, h: nat, top: nat, held: seq<QueuedBlock>, b: QueuedBlock)
    requires |held| == top - h && h in q
    ensures var v := Narrow(q, h, top, held);
            h in v && v[h] == q[h] && v[h := [b]] == Narrow(q, h - 1, top, held + [b])
  {
  }

  lemma {:induction false} WithoutStep(q: Queue, h: nat, top: nat)
    requires h <= top
    ensures Without(q, h, top) - {h} == Without(q, h - 1, top)
  {
  }

  lemma {:induction false} HeldNext(q: Queue, cps: Checkpoints, top: int, h: nat, first: Hash, expected: Hash,
                                    held: seq<QueuedBlock>, b: QueuedBlock)
    requires Held(q, cps, top, h, first, expected, held)
    requires h in q && b in q[h] && b.block.height == h && b.block.hash == expected
    requires h in cps ==> cps[h] == expected
    ensures Held(q, cps, top, h - 1, first, b.block.prevHash, held + [b])
  {
    var held' := held + [b];
    forall k | 0 <= k < |held'| ensures HeldAt(q, cps, top - k, held'[k]) {
      if k < |held| {
        assert held'[k] == held[k];
      }
    }
    forall k, l | 0 <= k < l < |held'| && l == k + 1 ensures held'[l].block.hash == held'[k].block.prevHash {
      assert held'[k] == held[k];
      if l < |held| {
        assert held'[l] == held[l];
      }
    }
  }

  /** The walk has broken at `failed`; what was held can go back. */
  ghost predicate IsBroken(cps: Checkpoints, q: Queue, low: int, target: nat, failed: nat, held: seq<QueuedBlock>,
                           cur: Queue, accepted: map<nat, QueuedBlock>, answered: map<nat, Reply<Hash>>) {
    && ValidCheckpoints(cps) && -1 <= low < failed <= target && |held| == target - failed
    && IsTarget(cps, q, low, Checkpoint(target)) && RangeWalk(cps, q, low, target) == Broken(failed, held)
    && cur == Without(q, failed - 1, target) && Filed(q, target, held)
    && var q' := Narrow(q, failed, target, held) - {failed};
       Accounted(q', accepted, answered) && ValidQueue(cps, q')
  }

  /** The walk has reached the verified height. */
  ghost predicate IsComplete(cps: Checkpoints, q: Queue, low: int, target: nat, expected: Hash,
                             held: seq<QueuedBlock>, cur: Queue, accepted: map<nat, QueuedBlock>,
                             answered: map<nat, Reply<Hash>>) {
    && ValidCheckpoints(cps) && -1 <= low && |held| == target - low
    && IsTarget(cps, q, low, Checkpoint(target)) && RangeWalk(cps, q, low, target) == Linked(held, expected)
    && Held(q, cps, target, low, cps[target], expected, held)
    && cur == Without(q, low, target) && ValidQueue(cps, cur) && Covered(q, low, target)
    && Accounted(Narrow(q, low, target, held), accepted, answered)
  }

  /** A height without a matching block breaks the walk. */
  lemma {:induction false} InRangeBroken(cps: Checkpoints, q: Queue, low: int, target: nat, i: nat, cur: Queue,
                                         expected: Hash, held: seq<QueuedBlock>, accepted: map<nat, QueuedBlock>,
                                         before: map<nat, Reply<Hash>>, after: map<nat, Reply<Hash>>)
    requires InRange(cps, q, low, target, i, cur, expected, held, accepted, before) && i < target - low
    requires target - i in q && SideChained(q[target - i], expected, before, after)
    requires !(target - i in cps && cps[target - i] != expected)
    requires Match(q[target - i], expected) == None
    ensures IsBroken(cps, q, low, target, target - i, held, cur - {target - i}, accepted, after)
    ensures !RangeWalk(cps, q, low, target).Mismatch?
  {
    hide Held, Accounted, SideChained, DistinctHashes, Narrow, Without;
    HeldLength(q, cps, target, target - i, cps[target], expected, held);
    var h, v := target - i, Narrow(q, target - i, target, held);
    HeldHeights(q, cps, target, h, cps[target], expected, held);
    TargetFacts(cps, q, low, target);
    assert ValidList(q[h], h);
    WithoutStep(q, h, target);
    NarrowValid(cps, q, h, target, held);
    AccountedStep(v, accepted, before, after, h, expected, v - {h});
  }

  /** `held` are blocks of the heights from `top` down, at heights that the queue had. */
  ghost predicate Filed(q: Queue, top: int, held: seq<QueuedBlock>) {
    forall k :: 0 <= k < |held| ==> held[k].block.height == top - k && held[k].block.height in q
  }

  lemma {:induction false} HeldHeights(q: Queue, cps: Checkpoints, top: int, h: nat, first: Hash, expected: Hash,
                                       held: seq<QueuedBlock>)
    requires Held(q, cps, top, h, first, expected, held)
    ensures Filed(q, top, held)
  {
  }

  lemma {:induction false} NarrowValid(cps: Checkpoints, q: Queue, h: nat, top: nat, held: seq<QueuedBlock>)
    requires ValidCheckpoints(cps) && ValidQueue(cps, q) && |held| == top - h && h in q
    requires Filed(q, top, held)
    ensures var v := Narrow(q, h, top, held);
            h in v && v[h] == q[h] && ValidQueue(cps, v) && ValidQueue(cps, v - {h})
  {
    var v := Narrow(q, h, top, held);
    forall k | k in v
      ensures k <= MaxHeight(cps) && ValidList(v[k], k)
    {
      if h < k <= top {
        assert held[top - k].block.height == k;
      }
    }
  }

  lemma {:induction false} InRangeMismatch(cps: Checkpoints, q: Queue, low: int, target: nat, i: nat, cur: Queue,
                                           expected: Hash, held: seq<QueuedBlock>, accepted: map<nat, QueuedBlock>,
                                           answered: map<nat, Reply<Hash>>)
    requires InRange(cps, q, low, target, i, cur, expected, held, accepted, answered) && i < target - low
    requires target - i in cps && cps[target - i] != expected
    ensures RangeWalk(cps, q, low, target).Mismatch?
  {
  }

  /** At the end of the range the walk is complete. */
  lemma {:induction false} InRangeDone(cps: Checkpoints, q: Queue, low: int, target: nat, i: nat, cur: Queue,
                                       expected: Hash, held: seq<QueuedBlock>, accepted: map<nat, QueuedBlock>,
                                       answered: map<nat, Reply<Hash>>)
    requires InRange(cps, q, low, target, i, cur, expected, held, accepted, answered) && i == target - low
    ensures IsComplete(cps, q, low, target, expected, held, cur, accepted, answered)
    ensures !RangeWalk(cps, q, low, target).Mismatch?
  {
    hide Held, Accounted, Narrow, ValidList;
    HeldLength(q, cps, target, target - i, cps[target], expected, held);
    assert target - i == low;
  }

  lemma {:induction false} HeldLength(q: Queue, cps: Checkpoints, top: int, h: int, first: Hash, expected: Hash,
                                      held: seq<QueuedBlock>)
    requires Held(q, cps, top, h, first, expected, held)
    ensures |held| == top - h
  {
  }

  // -------------------------------------------------------------------------
  // The verifier.

  /** The highest checkpoint above `low` up to `high`. */
  function MaxHeightInRange(cps: Checkpoints, low: int, high: int): (r: Option<nat>)
    requires -1 <= low
    ensures r.Some? ==> r.value in cps && low < r.value <= high
    ensures forall c :: c in cps && low < c <= high ==> r.Some? && c <= r.value
    decreases high - low
  {
    if high <= low then None
    else if high in cps then Some(high)
    else MaxHeightInRange(cps, low, high - 1)
  }

  /** The queued heights above `low` up to `high`, highest first. */
  function HeightsDown(q: Queue, low: int, high: int): (hs: seq<nat>)
    requires -1 <= low
    ensures Covered(q, low, high) && low <= high ==>
              |hs| == high - low && forall i :: 0 <= i < |hs| ==> hs[i] == high - i
    decreases high - low
  {
    if high <= low then []
    else if high in q then [high] + HeightsDown(q, low, high - 1)
    else HeightsDown(q, low, high - 1)
  }

  /** The height and hash that verification continues from; before genesis there is no block. */
  function BaseHeight(tip: Option<(nat, Hash)>): int {
    if tip.Some? then tip.value.0 else -1
  }

  function BaseHash(tip: Option<(nat, Hash)>): Hash {
    if tip.Some? then tip.value.1 else GENESIS_PREVIOUS_BLOCK_HASH
  }

  class CheckpointVerifier {
    const checkpoints: Checkpoints
    var initialTipHash: Option<Hash>
    var queued: Queue
    var progress: Progress
    var nextTx: nat

    /** Every accepted request, and the answers sent so far. */
    ghost var accepted: map<nat, QueuedBlock>
    ghost var answered: map<nat, Reply<Hash>>
    /** The requests answered with success in sending order; `epoch` of them came before the last reset. */
    ghost var okLog: seq<QueuedBlock>
    ghost var epoch: nat
    /** The tip that verification continues from since the last reset. */
    ghost var baseHeight: int
    ghost var baseHash: Hash

    ghost predicate Valid()
      reads this
    {
      && ValidProgress(checkpoints, progress, initialTipHash)
      && ValidQueue(checkpoints, queued)
      && Accounted(queued, accepted, answered)
      && (forall tx :: tx in accepted ==> tx < nextTx)
      && OkLogged(okLog, answered)
      && epoch <= |okLog|
      && Frontier(checkpoints, progress, initialTipHash, baseHeight, baseHash, Blocks(okLog[epoch..]))
    }

    ghost function Abs(): State
      reads this
    {
      State(initialTipHash, progress, queued, nextTx, accepted, answered, okLog)
    }

    constructor (cps: Checkpoints, tip: Option<(nat, Hash)>)
      requires ValidCheckpoints(cps)
      ensures Valid() && checkpoints == cps && epoch == 0 && Abs() == Start(cps, tip)
      ensures baseHeight == BaseHeight(tip) && baseHash == BaseHash(tip)
    {
      checkpoints := cps;
      initialTipHash, progress := ProgressFromTip(cps, tip).0, ProgressFromTip(cps, tip).1;
      queued, nextTx := map[], 0;
      accepted, answered, okLog, epoch := map[], map[], [], 0;
      baseHeight, baseHash := BaseHeight(tip), BaseHash(tip);
    }

    /** Resets progress to the tip of the state. */
    method ResetProgress(tip: Option<(nat, Hash)>)
      requires Valid()
      modifies this`initialTipHash, this`progress, this`epoch, this`baseHeight, this`baseHash
      ensures Valid() && epoch == |okLog|
      ensures (initialTipHash, progress) == ProgressFromTip(checkpoints, tip)
      ensures baseHeight == BaseHeight(tip) && baseHash == BaseHash(tip)
    {
      var (tipHash, p) := ProgressFromTip(checkpoints, tip);
      initialTipHash, progress := tipHash, p;
      epoch := |okLog|;
      baseHeight, baseHash := BaseHeight(tip), BaseHash(tip);
    }

    /** The target checkpoint for the queued blocks. */
    method TargetCheckpointHeight() returns (t: Target)
      requires ValidProgress(checkpoints, progress, initialTipHash) && ValidQueue(checkpoints, queued)
      ensures progress.FinalCheckpoint? ==> t == FinishedVerifying
      ensures !progress.FinalCheckpoint? ==> IsTarget(checkpoints, queued, Low(checkpoints, progress), t)
    {
      if progress.FinalCheckpoint? {
        return FinishedVerifying;
      }
      ghost var low := Low(checkpoints, progress);
      if progress.BeforeGenesis? && 0 !in queued {
        return WaitingForBlocks;
      }
      var pendingHeight := if progress.BeforeGenesis? then 0 else progress.height;
      while pendingHeight + 1 in queued
        invariant pendingHeight <= MaxHeight(checkpoints) && low <= pendingHeight
        invariant Covered(queued, low, pendingHeight)
        decreases MaxHeight(checkpoints) - pendingHeight
      {
        pendingHeight := pendingHeight + 1;
      }
      var start := if progress.BeforeGenesis? then -1 else progress.height as int;
      var target := MaxHeightInRange(checkpoints, start, pendingHeight);
      forall c | c in checkpoints && c > pendingHeight
        ensures !Covered(queued, low, c)
      {
        assert !(low < pendingHeight + 1 <= c ==> pendingHeight + 1 in queued);
      }
      t := if target.Some? then Checkpoint(target.value) else WaitingForBlocks;
    }

    /** Sends an answer. Every request is answered at most once. */
    ghost method Send(b: QueuedBlock, r: Reply<Hash>)
      requires b.tx !in answered
      modifies this`answered, this`okLog
      ensures answered == old(answered)[b.tx := r]
      ensures okLog == if r.Ok? then old(okLog) + [b] else old(okLog)
    {
      answered := answered[b.tx := r];
      if r.Ok? {
        okLog := okLog + [b];
      }
    }

    /** Processes the blocks at one height of a range. Stops the program exactly if an interim
      * checkpoint contradicts the expected hash. */
    method ProcessHeight(height: nat, expected: Hash) returns (panicked: bool, valid: Option<QueuedBlock>)
      requires height in queued && ValidList(queued[height], height)
      requires forall b :: b in queued[height] ==> b.tx in accepted && accepted[b.tx] == b && b.tx !in answered
      modifies this`queued, this`answered, this`okLog
      ensures queued == old(queued) - {height} && okLog == old(okLog)
      ensures panicked <==> height in checkpoints && checkpoints[height] != expected
      ensures !panicked ==> valid == Match(old(queued)[height], expected)
      ensures !panicked ==> SideChained(old(queued)[height], expected, old(answered), answered)
    {
      hide SideChained, Match, Accounted;
      var qblocks := queued[height];
      queued := queued - {height};
      SideChainedEmpty(expected, answered);
      panicked, valid := false, None;
      assert |qblocks| > 0;
      if height in checkpoints && checkpoints[height] != expected {
        return true, None;
      }
      for i := 0 to |qblocks|
        invariant valid == Match(qblocks[..i], expected)
        invariant queued == old(queued) - {height} && okLog == old(okLog)
        invariant SideChained(qblocks[..i], expected, old(answered), answered)
      {
        MatchNext(qblocks, i, expected);
        SideChainedNext(qblocks, i, expected, accepted, old(answered), answered);
        var qblock := qblocks[i];
        if qblock.block.hash == expected {
          assert valid.None?;
          valid := Some(qblock);
        } else {
          Send(qblock, Err(UnexpectedSideChain(expected, qblock.block.hash)));
        }
      }
      assert qblocks[..|qblocks|] == qblocks;
    }

    /** Queues a block. A newer request replaces an older one for the same block. */
    method QueueBlock(req: Request) returns (r: Reply<nat>)
      requires Valid()
      modifies this`queued, this`nextTx, this`accepted, this`answered, this`okLog
      ensures Valid()
      ensures match Admit(checkpoints, progress, old(queued), req)
              case Err(error) => r == Err(error) && Abs() == old(Abs())
              case Ok(block) =>
                r == Ok(old(nextTx)) && r.value !in old(accepted) && Abs() == Enqueued(old(Abs()), block)
      ensures Stay(old(answered), answered)
    {
      hide Match, Put, Accounted, ValidQueue, Frontier, OkLogged;
      if req.coinbaseHeight.None? {
        return Err(CoinbaseHeight);
      }
      var height := req.coinbaseHeight.value;
      var checked := CheckHeight(checkpoints, progress, height);
      if checked.Err? {
        return Err(checked.error);
      }
      if !req.valid {
        return Err(InvalidBlock);
      }
      var newQblock := QueuedBlock(Block(height, req.hash, req.prevHash, req.body), nextTx);
      var qblocks := EntryOrDefault(queued, height);
      for i := 0 to |qblocks|
        invariant forall j :: 0 <= j < i ==> qblocks[j].block.hash != req.hash
      {
        if qblocks[i].block.hash == req.hash {
          PutReplaces(qblocks, i, newQblock);
          QueueKeeps(checkpoints, queued, accepted, answered, newQblock, NewerRequest(height, req.hash));
          OkLoggedErr(okLog, answered, qblocks[i].tx, NewerRequest(height, req.hash));
          Send(qblocks[i], Err(NewerRequest(height, req.hash)));
          queued := queued[height := qblocks[i := newQblock]];
          accepted := accepted[newQblock.tx := newQblock];
          nextTx := nextTx + 1;
          return Ok(newQblock.tx);
        }
      }
      PutAppends(qblocks, newQblock);
      if |qblocks| >= MAX_QUEUED_BLOCKS_PER_HEIGHT {
        return Err(QueuedLimit);
      }
      QueueKeeps(checkpoints, queued, accepted, answered, newQblock, NewerRequest(height, req.hash));
      queued := queued[height := qblocks + [newQblock]];
      accepted := accepted[newQblock.tx := newQblock];
      nextTx := nextTx + 1;
      return Ok(newQblock.tx);
    }

    /** Answers every request that is still queued. */
    method Drop()
      requires Valid()
      modifies this`queued, this`answered, this`okLog
      ensures Valid() && queued == map[] && okLog == old(okLog)
      ensures answered.Keys == accepted.Keys
      ensures AnsweredOrDropped(accepted, old(answered), answered)
    {
      hide Frontier, OkLogged, DistinctHashes;
      while queued != map[]
        invariant ValidQueue(checkpoints, queued) && Accounted(queued, accepted, answered)
        invariant OkLogged(okLog, answered) && okLog == old(okLog)
        invariant forall tx :: tx in old(answered) ==> tx in answered && answered[tx] == old(answered)[tx]
        invariant forall tx :: tx in answered && tx !in old(answered) ==> answered[tx] == Err(Dropped)
        decreases |queued|
      {
        var key :| key in queued;
        DropHeight(key);
      }
      AllAnswered(accepted, answered);
    }

    /** Answers every request queued at one height. */
    method DropHeight(key: nat)
      requires key in queued && ValidCheckpoints(checkpoints) && ValidQueue(checkpoints, queued)
      requires Accounted(queued, accepted, answered) && OkLogged(okLog, answered)
      modifies this`queued, this`answered, this`okLog
      ensures queued == old(queued) - {key} && |queued| < |old(queued)|
      ensures ValidQueue(checkpoints, queued) && Accounted(queued, accepted, answered)
      ensures OkLogged(okLog, answered) && okLog == old(okLog)
      ensures forall tx :: tx in old(answered) ==> tx in answered && answered[tx] == old(answered)[tx]
      ensures forall tx :: tx in answered && tx !in old(answered) ==> answered[tx] == Err(Dropped)
    {
      hide OkLogged, Accounted;
      ghost var v := queued;
      var qblocks := queued[key];
      assert ValidList(qblocks, key);
      assert qblocks[0..] == qblocks && v == v[key := qblocks];
      queued := queued - {key};
      for i := 0 to |qblocks|
        invariant v == old(queued)[key := qblocks[i..]] && Accounted(v, accepted, answered)
        invariant queued == old(queued) - {key} && OkLogged(okLog, answered) && okLog == old(okLog)
        invariant forall tx :: tx in old(answered) ==> tx in answered && answered[tx] == old(answered)[tx]
        invariant forall tx :: tx in answered && tx !in old(answered) ==> answered[tx] == Err(Dropped)
      {
        assert qblocks[i..][1..] == qblocks[i + 1..];
        AccountedPop(v, accepted, answered, key, Err(Dropped));
        OkLoggedErr(okLog, answered, qblocks[i].tx, Dropped);
        Send(qblocks[i], Err(Dropped));
        v := v[key := qblocks[i + 1..]];
      }
      AccountedWithoutEmpty(v, accepted, answered, key);
      assert v - {key} == queued;
      assert queued.Keys == old(queued).Keys - {key};
    }

    /** Increases the verified height to a checkpoint. Anything else is ignored. */
    method UpdateProgress(verifiedHeight: nat)
      requires ValidProgress(checkpoints, progress, initialTipHash)
      modifies this`progress, this`initialTipHash
      ensures ValidProgress(checkpoints, progress, initialTipHash)
      ensures if verifiedHeight in checkpoints && Low(checkpoints, old(progress)) < verifiedHeight
              then progress == Advanced(checkpoints, verifiedHeight)
                   && initialTipHash == if progress.FinalCheckpoint? then old(initialTipHash) else None
              else progress == old(progress) && initialTipHash == old(initialTipHash)
    {
      if CheckHeight(checkpoints, progress, verifiedHeight).Err? {
        return;
      }
      if verifiedHeight == MaxHeight(checkpoints) {
        progress := FinalCheckpoint;
      } else if verifiedHeight in checkpoints {
        progress := PreviousCheckpoint(verifiedHeight);
        initialTipHash := None;
      }
    }

    /** Puts the blocks held from a failed range back, each as the only block of its height. */
    method PutBack(held: seq<QueuedBlock>, ghost q: Queue, ghost failed: nat, ghost top: nat)
      requires failed <= top && |held| == top - failed && queued == Without(q, failed - 1, top)
      requires Filed(q, top, held)
      modifies this`queued
      ensures queued == Narrow(q, failed, top, held) - {failed}
    {
      hide Narrow, Without, Restored, Filed;
      RestoredEnds(q, failed, top, held);
      var i := |held|;
      while i > 0
        invariant 0 <= i <= |held| && queued == Restored(q, failed, top, held, i)
      {
        i := i - 1;
        RestoredStep(q, failed, top, held, i);
        var vblock := held[i];
        assert EntryOrDefault(queued, vblock.block.height) + [vblock] == [vblock];
        queued := queued[vblock.block.height := EntryOrDefault(queued, vblock.block.height) + [vblock]];
      }
    }

    /** Gives up on a range: puts the held blocks back. The new target is below the failing height, or there is
      * none. */
    method FailRange(held: seq<QueuedBlock>, ghost q: Queue, failed: nat, target: nat)
      requires ValidProgress(checkpoints, progress, initialTipHash) && !progress.FinalCheckpoint?
      requires Low(checkpoints, progress) < failed <= target && |held| == target - failed
      requires queued == Without(q, failed - 1, target)
      requires Filed(q, target, held)
      requires ValidQueue(checkpoints, Narrow(q, failed, target, held) - {failed})
      modifies this`queued
      ensures queued == Narrow(q, failed, target, held) - {failed}
      ensures var t := TargetOf(checkpoints, queued, Low(checkpoints, progress));
              t == WaitingForBlocks || (t.Checkpoint? && t.height < failed)
    {
      hide Narrow, Without, ValidQueue, IsTarget, Filed;
      PutBack(held, q, failed, target);
      assert failed !in queued;
      var currentTarget := TargetCheckpointHeight();
      FailureLowersTarget(checkpoints, queued, Low(checkpoints, progress), target, failed, currentTarget);
      TargetUniqueOf(checkpoints, queued, Low(checkpoints, progress), currentTarget);
      assert currentTarget == WaitingForBlocks || (currentTarget.Checkpoint? && currentTarget.height < target);
    }

    /** Answers the blocks of a complete range with success, in height order. */
    ghost method AnswerOk(held: seq<QueuedBlock>, q: Queue, low: int, top: nat)
      requires -1 <= low <= top && |held| == top - low && Covered(q, low, top)
      requires Accounted(Narrow(q, low, top, held), accepted, answered) && OkLogged(okLog, answered)
      modifies this`answered, this`okLog
      ensures Accounted(Without(q, low, top), accepted, answered) && OkLogged(okLog, answered)
      ensures okLog == old(okLog) + Reversed(held) && RoundAnswers(accepted, old(answered), answered)
    {
      hide Accounted, OkLogged, Rest, Narrow, Without, RoundAnswers;
      var i, v := |held|, Narrow(q, low, top, held);
      RestEnds(q, low, top, held);
      NoRoundAnswers(accepted, answered);
      while i > 0
        invariant 0 <= i <= |held|
        invariant v == Rest(q, low, top, held, i)
        invariant Accounted(v, accepted, answered) && OkLogged(okLog, answered)
        invariant okLog == old(okLog) + Reversed(held)[..|held| - i]
        invariant RoundAnswers(accepted, old(answered), answered)
      {
        i := i - 1;
        var r := Ok(held[i].block.hash);
        RestStep(q, low, top, held, i);
        AccountedAnswer(v, accepted, answered, top - i, held[i], r);
        RoundAnswersAdd(accepted, old(answered), answered, held[i], r);
        OkLoggedAppend(okLog, answered, held[i]);
        Send(held[i], r);
        v := v - {top - i};
      }
    }

    /** Commits a complete range: answers its blocks and moves progress to the target. No checkpoint above it can
      * be reached. */
    method CompleteRange(ghost held: seq<QueuedBlock>, ghost q: Queue, ghost low: int, target: nat)
      requires ValidProgress(checkpoints, progress, initialTipHash) && !progress.FinalCheckpoint?
      requires low == Low(checkpoints, progress) && IsTarget(checkpoints, q, low, Checkpoint(target))
      requires Held(q, checkpoints, target, low, checkpoints[target],
                    PreviousHash(checkpoints, progress, initialTipHash), held)
      requires |held| == target - low && queued == Without(q, low, target) && ValidQueue(checkpoints, queued)
      requires Accounted(Narrow(q, low, target, held), accepted, answered) && OkLogged(okLog, answered)
      requires forall tx :: tx in accepted ==> tx < nextTx
      requires epoch <= |okLog|
      requires Frontier(checkpoints, progress, initialTipHash, baseHeight, baseHash, Blocks(okLog[epoch..]))
      modifies this`progress, this`initialTipHash, this`answered, this`okLog
      ensures Valid() && progress == Advanced(checkpoints, target)
      ensures initialTipHash == if progress.FinalCheckpoint? then old(initialTipHash) else None
      ensures okLog == old(okLog) + Reversed(held) && RoundAnswers(accepted, old(answered), answered)
      ensures IsTarget(checkpoints, queued, target, WaitingForBlocks)
    {
      hide IsTarget, Covered, Accounted, OkLogged, Held, Frontier, Without, Narrow, ValidQueue, RoundAnswers;
      TargetFacts(checkpoints, q, low, target);
      FrontierAdvances(checkpoints, q, progress, initialTipHash, baseHeight, baseHash, Blocks(okLog[epoch..]),
                       target, held);
      AnswerOk(held, q, low, target);
      UpdateProgress(target);
      assert Less(old(progress), progress);
      assert if progress.FinalCheckpoint? then target == MaxHeight(checkpoints)
             else progress == PreviousCheckpoint(target);
      assert okLog[epoch..] == old(okLog)[epoch..] + Reversed(held);
      assert Blocks(okLog[epoch..]) == Blocks(old(okLog)[epoch..]) + Blocks(Reversed(held));
      FrontierTipHash(checkpoints, target, baseHeight, baseHash, Blocks(okLog[epoch..]), initialTipHash);
      var newTarget := TargetCheckpointHeight();
      SuccessCoversAll(checkpoints, q, low, target);
      if !progress.FinalCheckpoint? {
        TargetUnique(checkpoints, queued, target, newTarget, WaitingForBlocks);
      }
      assert newTarget == WaitingForBlocks || newTarget == FinishedVerifying;
    }

    /** Walks a range from its target checkpoint down. It stops the program exactly if a checkpoint contradicts
      * the walk, and otherwise holds the blocks found down to the failing height, or down to the verified one. */
    method WalkRange(start: int, target: nat) returns (panicked: bool, failed: Option<nat>, expected: Hash,
                                                       held: seq<QueuedBlock>)
      requires -1 <= start && target in checkpoints && IsTarget(checkpoints, queued, start, Checkpoint(target))
      requires InRange(checkpoints, queued, start, target, 0, queued, checkpoints[target], [], accepted, answered)
      requires OkLogged(okLog, answered)
      modifies this`queued, this`answered, this`okLog
      ensures okLog == old(okLog)
      ensures panicked <==> RangeWalk(checkpoints, old(queued), start, target).Mismatch?
      ensures !panicked ==> OkLogged(okLog, answered) && RoundAnswers(accepted, old(answered), answered)
      ensures !panicked && failed.Some? ==> IsBroken(checkpoints, old(queued), start, target, failed.value, held,
                                                     queued, accepted, answered)
      ensures !panicked && failed.None? ==> IsComplete(checkpoints, old(queued), start, target, expected, held,
                                                       queued, accepted, answered)
    {
      hide IsTarget, Covered, InRange, Accounted, OkLogged, Held, Without, Narrow, RangeWalk, ValidQueue, Match,
           SideChained, ValidList, Descend, HeightsDown, DistinctHashes, RoundAnswers, IsBroken, IsComplete;
      ghost var q := queued;
      panicked, failed, expected, held := false, None, checkpoints[target], [];
      InRangeHeights(checkpoints, q, start, target, accepted, answered);
      NoRoundAnswers(accepted, answered);
      var rangeHeights := HeightsDown(queued, start, target);
      for i := 0 to |rangeHeights|
        invariant !panicked && okLog == old(okLog) && failed.None?
        invariant InRange(checkpoints, q, start, target, i, queued, expected, held, accepted, answered)
        invariant OkLogged(okLog, answered) && RoundAnswers(accepted, old(answered), answered)
      {
        var height := rangeHeights[i];
        ghost var cur, before := queued, answered;
        InRangeHeight(checkpoints, q, start, target, i, queued, expected, held, accepted, answered);
        var valid;
        panicked, valid := ProcessHeight(height, expected);
        if panicked {
          InRangeMismatch(checkpoints, q, start, target, i, cur, expected, held, accepted, before);
          return;
        }
        OkLoggedSideChained(okLog, q[height], expected, before, answered);
        RoundAnswersSideChained(accepted, old(answered), q[height], expected, before, answered);
        if valid.Some? {
          InRangeNext(checkpoints, q, start, target, i, cur, expected, held, accepted, before, answered, valid.value);
          expected := valid.value.block.prevHash;
          held := held + [valid.value];
        } else {
          InRangeBroken(checkpoints, q, start, target, i, cur, expected, held, accepted, before, answered);
          failed := Some(height);
          return;
        }
      }
      InRangeDone(checkpoints, q, start, target, |rangeHeights|, queued, expected, held, accepted, answered);
    }

    /** Tries to verify from the previous checkpoint to the target checkpoint. */
    method ProcessCheckpointRange() returns (panicked: bool)
      requires Valid()
      modifies this`queued, this`progress, this`initialTipHash, this`answered, this`okLog
      ensures panicked <==> RangePanics(checkpoints, old(queued), old(progress), old(initialTipHash))
      ensures !panicked ==> Valid() && Round(checkpoints, old(Abs()), Abs()) && old(okLog) <= okLog
    {
      hide IsTarget, Accounted, OkLogged, Frontier, ValidQueue, Blocks, Round, RangePanics;
      if progress.FinalCheckpoint? {
        RoundNothing(checkpoints, Abs());
        return false;
      }
      var previousCheckpointHash :=
        if progress.BeforeGenesis? then GENESIS_PREVIOUS_BLOCK_HASH
        else if progress.InitialTip? then initialTipHash.value
        else checkpoints[progress.height];
      var t := TargetCheckpointHeight();
      TargetUniqueOf(checkpoints, queued, Low(checkpoints, progress), t);
      if t.WaitingForBlocks? {
        RoundNothing(checkpoints, Abs());
        return false;
      }
      var start := if progress.BeforeGenesis? then -1 else progress.height as int;
      panicked := VerifyRange(start, t.height, previousCheckpointHash);
    }

    /** Verifies the range above `start` up to the target checkpoint. */
    method VerifyRange(start: int, target: nat, previousCheckpointHash: Hash) returns (panicked: bool)
      requires Valid() && !progress.FinalCheckpoint? && start == Low(checkpoints, progress)
      requires TargetOf(checkpoints, queued, start) == Checkpoint(target)
      requires previousCheckpointHash == PreviousHash(checkpoints, progress, initialTipHash)
      modifies this`queued, this`progress, this`initialTipHash, this`answered, this`okLog
      ensures panicked <==> RangePanics(checkpoints, old(queued), old(progress), old(initialTipHash))
      ensures !panicked ==> Valid() && Round(checkpoints, old(Abs()), Abs()) && old(okLog) <= okLog
    {
      hide IsTarget, Covered, InRange, Accounted, OkLogged, Held, Frontier, Without, Narrow, RangeWalk, ValidQueue,
           Blocks, Reversed, Advanced, RoundAnswers, Round, RangePanics;
      ghost var s := Abs();
      TargetFacts(checkpoints, s.queue, start, target);
      RoundPanics(checkpoints, s, target);
      InRangeStart(checkpoints, s.queue, start, target, accepted, answered);
      var failed, expected, held;
      panicked, failed, expected, held := WalkRange(start, target);
      if panicked {
        return;
      }
      if failed.Some? {
        FailRange(held, s.queue, failed.value, target);
        RoundBroken(checkpoints, s, target, failed.value, held, Abs());
      } else if expected != previousCheckpointHash {
        return true;
      } else {
        ghost var walked := answered;
        CompleteRange(held, s.queue, start, target);
        RoundAnswersOn(accepted, s.answered, walked, answered);
        RoundComplete(checkpoints, s, target, expected, held, Abs());
      }
    }

    /** Handles one request, resetting first if the state asked for it. */
    method Call(e: Event, ghost chain: seq<Block>) returns (panicked: bool, r: Reply<nat>)
      requires Valid()
      modifies this
      ensures panicked <==> CallPanics(checkpoints, old(Abs()), e)
      ensures !panicked ==> Valid() && Called(checkpoints, old(Abs()), e, Abs(), r)
      ensures !panicked ==> Stay(old(answered), answered) && old(okLog) <= okLog
      ensures if e.reset.None? then epoch == old(epoch) && baseHeight == old(baseHeight) && baseHash == old(baseHash)
              else epoch == |old(okLog)| && baseHeight == BaseHeight(e.reset.value)
                   && baseHash == BaseHash(e.reset.value)
      ensures OnChain(checkpoints, chain, old(queued), old(progress), old(initialTipHash)) && GoodEvent(chain, e) ==>
                !panicked && OnChain(checkpoints, chain, queued, progress, initialTipHash)
    {
      hide Frontier, Accounted, OkLogged, RangePanics, Processed, NoCollisions, OneChain, Match, Put, CheckHeight,
           ProgressFromTip, Stay, RoundAnswers;
      ghost var good := OnChain(checkpoints, chain, queued, progress, initialTipHash) && GoodEvent(chain, e);
      panicked := false;
      NothingAnswered(answered);
      if e.reset.Some? {
        ResetProgress(e.reset.value);
        if good { TipKeepsOnChain(checkpoints, chain, queued, e.reset.value); }
      }
      ghost var s0 := Abs();
      assert s0 == Reset(checkpoints, old(Abs()), e);
      if progress.FinalCheckpoint? {
        return false, Err(Finished);
      }
      r := QueueBlock(e.request);
      if r.Err? {
        return;
      }
      ghost var s1 := Abs();
      if good {
        var block := Admit(checkpoints, s0.progress, s0.queue, e.request).value;
        PutNoCollision(chain, s0.queue, QueuedBlock(block, r.value), s1.queue);
        NoPanicOnOneChain(checkpoints, s1.queue, s1.progress, s1.tipHash, chain);
      }
      panicked := ProcessCheckpointRange();
      if !panicked {
        AnsweredOn(s1.accepted, old(answered), s1.answered, answered);
      }
      if good {
        OnChainKept(checkpoints, chain, s1.queue, s1.progress, s1.tipHash, s1.okLog,
                    queued, progress, initialTipHash, okLog);
      }
    }

    /** Handles a sequence of requests and resets, up to a panic. `trace` has the states between the calls. */
    method Run(events: seq<Event>, ghost chain: seq<Block>)
      returns (panicked: bool, replies: seq<Reply<nat>>, ghost trace: seq<State>)
      requires Valid()
      modifies this
      ensures |replies| <= |events| && Ran(checkpoints, trace, events[..|replies|], replies) && trace[0] == old(Abs())
      ensures AllSound(checkpoints, trace)
      ensures panicked ==> |replies| < |events| && CallPanics(checkpoints, trace[|replies|], events[|replies|])
      ensures !panicked ==> |replies| == |events| && Valid() && Abs() == trace[|events|]
      ensures !panicked ==> Stay(old(answered), answered) && old(okLog) <= okLog
      ensures !panicked && (forall i :: 0 <= i < |events| ==> events[i].reset.None?) ==>
                epoch == old(epoch) && baseHeight == old(baseHeight) && baseHash == old(baseHash)
      ensures OnChain(checkpoints, chain, old(queued), old(progress), old(initialTipHash)) ==>
                (forall i :: 0 <= i < |events| ==> GoodEvent(chain, events[i])) ==> !panicked
    {
      hide Valid, OnChain, GoodEvent, Called, CallPanics, Stay, Sound, AllSound;
      SoundOf(this);
      SoundAlone(checkpoints, Abs());
      FrontierOf(this);
      NothingAnswered(answered);
      panicked, replies, trace := false, [], [Abs()];
      for i := 0 to |events|
        invariant !panicked && Valid() && |replies| == i && |trace| == i + 1
        invariant trace[0] == old(Abs()) && trace[i] == Abs()
        invariant Ran(checkpoints, trace, events[..i], replies) && AllSound(checkpoints, trace)
        invariant Stay(old(answered), answered) && old(okLog) <= okLog
        invariant (forall j :: 0 <= j < i ==> events[j].reset.None?) ==>
                    epoch == old(epoch) && baseHeight == old(baseHeight) && baseHash == old(baseHash)
        invariant OnChain(checkpoints, chain, old(queued), old(progress), old(initialTipHash)) ==>
                    (forall j :: 0 <= j < i ==> GoodEvent(chain, events[j])) ==>
                    OnChain(checkpoints, chain, queued, progress, initialTipHash)
      {
        ghost var before := Abs();
        var r;
        panicked, r := Call(events[i], chain);
        if panicked {
          return;
        }
        RanNext(checkpoints, trace, events[..i], replies, events[i], Abs(), r);
        SoundOf(this);
        AllSoundNext(checkpoints, trace, Abs());
        StayOn(old(answered), before.answered, answered);
        assert events[..i + 1] == events[..i] + [events[i]];
        replies, trace := replies + [r], trace + [Abs()];
      }
      assert events[..|events|] == events;
    }
  }

  /** The whole life of a verifier: created at a tip, run on requests and resets, and dropped. Dropping answers the
    * requests that the run left waiting. A request is told that a newer one replaced it exactly if one did. On one
    * chain and without resets, exactly those checkpoints have been reached up to which some call completed the chain's
    * own blocks; if every request is for a block of the chain, those whose blocks were all delivered. */
  method Lifetime(cps: Checkpoints, tip: Option<(nat, Hash)>, events: seq<Event>, ghost chain: seq<Block>)
    returns (v: CheckpointVerifier, panicked: bool, replies: seq<Reply<nat>>, ghost trace: seq<State>)
    requires ValidCheckpoints(cps)
    ensures v.checkpoints == cps
    ensures |replies| <= |events| && Ran(cps, trace, events[..|replies|], replies) && trace[0] == Start(cps, tip)
    ensures panicked ==> |replies| < |events| && CallPanics(cps, trace[|replies|], events[|replies|])
    ensures OneChain(cps, chain) && TipOnChain(chain, tip) ==>
              (forall i :: 0 <= i < |events| ==> GoodEvent(chain, events[i])) ==> !panicked
    ensures !panicked ==>
              && |replies| == |events| && v.Valid() && v.answered.Keys == v.accepted.Keys
              && v.Abs() == trace[|events|].(queue := map[], answered := v.answered)
              && AnsweredOrDropped(v.accepted, trace[|events|].answered, v.answered)
              && AllExplained(trace, events, replies)
    ensures !panicked && (forall i :: 0 <= i < |events| ==> events[i].reset.None?) ==>
              Frontier(cps, v.progress, v.initialTipHash, BaseHeight(tip), BaseHash(tip), Blocks(v.okLog))
    ensures OneChain(cps, chain) && TipOnChain(chain, tip) &&
            (forall i :: 0 <= i < |events| ==> events[i].reset.None? && GoodEvent(chain, events[i])) ==>
              !panicked && forall c :: c in cps && Low(cps, Start(cps, tip).progress) < c ==>
                (c <= Low(cps, v.progress) <==> CompletedBy(cps, chain, trace, events, |events|, c))
    ensures OneChain(cps, chain) && TipOnChain(chain, tip) &&
            (forall i :: 0 <= i < |events| ==> OwnEvent(chain, events[i])) ==>
              !panicked && forall c :: c in cps && AllDelivered(events, BaseHeight(tip), c) ==>
                c <= Low(cps, v.progress)
  {
    hide Frontier, CheckpointVerifier.Valid, OneChain, GoodEvent, ProgressFromTip, Ran, OwnEvent, CallPanics, Low,
         CompletedBy, AllExplained, AllSound;
    v := new CheckpointVerifier(cps, tip);
    if OneChain(cps, chain) && TipOnChain(chain, tip) {
      TipKeepsOnChain(cps, chain, v.queued, tip);
    }
    OwnEventsGood(chain, events);
    panicked, replies, trace := v.Run(events, chain);
    if !panicked {
      v.Drop();
      FrontierOf(v);
      assert v.okLog[0..] == v.okLog;
      assert events[..|events|] == events;
      RanLength(cps, trace, events, replies);
      RunExplained(cps, tip, trace, events, replies);
      if OneChain(cps, chain) && TipOnChain(chain, tip) {
        if forall i :: 0 <= i < |events| ==> events[i].reset.None? && GoodEvent(chain, events[i]) {
          GoodLifetime(cps, chain, tip, trace, events, replies);
        }
        if forall i :: 0 <= i < |events| ==> OwnEvent(chain, events[i]) {
          OwnLifetime(cps, chain, tip, trace, events, replies);
        }
      }
    }
  }

  /** Every answer of a run is explained. */
  ghost predicate AllExplained(trace: seq<State>, events: seq<Event>, replies: seq<Reply<nat>>)
    requires |trace| == |events| + 1 && |replies| == |events|
  {
    forall tx :: Explained(trace[|events|], tx, WasReplaced(trace, events, replies, |events|, tx))
  }

  lemma {:induction false} RunExplained(cps: Checkpoints, tip: Option<(nat, Hash)>, trace: seq<State>,
                                        events: seq<Event>, replies: seq<Reply<nat>>)
    requires ValidCheckpoints(cps) && Ran(cps, trace, events, replies) && trace[0] == Start(cps, tip)
    requires AllSound(cps, trace)
    ensures AllExplained(trace, events, replies)
  {
    hide Explained, WasReplaced, Called, AllSound, ProgressFromTip;
    forall tx: nat ensures Explained(trace[|events|], tx, WasReplaced(trace, events, replies, |events|, tx)) {
      AnswersExplained(cps, trace, events, replies, |events|, tx);
    }
  }

  ghost predicate AllDelivered(events: seq<Event>, low: int, high: nat)
    requires -1 <= low
  {
    forall h :: low < h <= high ==> Delivered(events, h)
  }

  lemma {:induction false} OwnEventsGood(chain: seq<Block>, events: seq<Event>)
    ensures (forall i :: 0 <= i < |events| ==> OwnEvent(chain, events[i])) ==>
              forall i :: 0 <= i < |events| ==> GoodEvent(chain, events[i])
  {
    hide NoCollision;
  }

  lemma {:induction false} StartSettled(cps: Checkpoints, chain: seq<Block>, tip: Option<(nat, Hash)>)
    requires ValidCheckpoints(cps) && OneChain(cps, chain) && TipOnChain(chain, tip)
    ensures Settled(cps, chain, Start(cps, tip))
    ensures Low(cps, Start(cps, tip).progress) <= BaseHeight(tip) || BaseHeight(tip) >= MaxHeight(cps)
    ensures !Start(cps, tip).progress.FinalCheckpoint? ==> Low(cps, Start(cps, tip).progress) == BaseHeight(tip)
  {
    var s := Start(cps, tip);
    forall c | c in cps && c > Low(cps, s.progress) ensures !Covered(s.queue, Low(cps, s.progress), c) {
      assert c !in s.queue;
    }
  }

  lemma {:induction false} RanLength(cps: Checkpoints, trace: seq<State>, events: seq<Event>, replies: seq<Reply<nat>>)
    requires ValidCheckpoints(cps) && Ran(cps, trace, events, replies)
    ensures |trace| == |events| + 1 && |replies| == |events|
  {
  }

  lemma {:induction false} GoodLifetime(cps: Checkpoints, chain: seq<Block>, tip: Option<(nat, Hash)>,
                                        trace: seq<State>, events: seq<Event>, replies: seq<Reply<nat>>)
    requires ValidCheckpoints(cps) && OneChain(cps, chain) && TipOnChain(chain, tip)
    requires Ran(cps, trace, events, replies) && trace[0] == Start(cps, tip)
    requires forall i :: 0 <= i < |events| ==> events[i].reset.None? && GoodEvent(chain, events[i])
    ensures forall c :: c in cps && Low(cps, Start(cps, tip).progress) < c ==>
              (c <= Low(cps, trace[|events|].progress) <==> CompletedBy(cps, chain, trace, events, |events|, c))
  {
    hide OneChain, GoodEvent, Called, CompletedBy;
    TipKeepsOnChain(cps, chain, trace[0].queue, tip);
    assert Compatible(cps, chain, trace[0]);
    forall c | c in cps && Low(cps, Start(cps, tip).progress) < c
      ensures c <= Low(cps, trace[|events|].progress) <==> CompletedBy(cps, chain, trace, events, |events|, c)
    {
      ReachedExactly(cps, chain, trace, events, replies, |events|, c);
    }
  }

  /** A verifier that never reaches a checkpoint although its block waits: it is enough to ask for a foreign block again
    * and again. */
  method StallingRun(n: nat) returns (v: CheckpointVerifier, panicked: bool, replies: seq<Reply<nat>>)
    ensures !panicked && |replies| == n + 3 && v.checkpoints == SampleCheckpoints() && 1 in v.checkpoints
    ensures v.progress == InitialTip(0) && OwnQueued(SampleChain(), v.queued, 1)
  {
    hide CheckpointVerifier.Valid, OneChain, GoodEvent, Ran, CallPanics, Foreigners;
    SampleFacts();
    SampleStart();
    v := new CheckpointVerifier(SampleCheckpoints(), Some((0, 1)));
    StallEventsGood(n);
    assert OnChain(v.checkpoints, SampleChain(), v.queued, v.progress, v.initialTipHash);
    ghost var trace;
    panicked, replies, trace := v.Run(StallEvents(n), SampleChain());
    assert StallEvents(n)[..|StallEvents(n)|] == StallEvents(n);
    StallEventsLength(n);
    SampleNeverReaches(trace, replies, n);
  }

  lemma {:induction false} StallEventsLength(n: nat)
    ensures |StallEvents(n)| == n + 3
  {
  }

  lemma {:induction false} StallEventsGood(n: nat)
    ensures forall i :: 0 <= i < |StallEvents(n)| ==> GoodEvent(SampleChain(), StallEvents(n)[i])
  {
    SampleFacts();
    hide GoodEvent;
  }

  lemma {:induction false} OwnLifetime(cps: Checkpoints, chain: seq<Block>, tip: Option<(nat, Hash)>,
                                       trace: seq<State>, events: seq<Event>, replies: seq<Reply<nat>>)
    requires ValidCheckpoints(cps) && OneChain(cps, chain) && TipOnChain(chain, tip)
    requires Ran(cps, trace, events, replies) && trace[0] == Start(cps, tip)
    requires forall i :: 0 <= i < |events| ==> OwnEvent(chain, events[i])
    ensures forall c :: c in cps && AllDelivered(events, BaseHeight(tip), c) ==>
              c <= Low(cps, trace[|events|].progress)
  {
    StartSettled(cps, chain, tip);
    var s := trace[0];
    forall c | c in cps && AllDelivered(events, BaseHeight(tip), c) ensures c <= Low(cps, trace[|events|].progress) {
      forall h | Low(cps, s.progress) < h <= c ensures Delivered(events, h) {
        assert !s.progress.FinalCheckpoint?;
      }
      hide Ran, Settled, OwnEvent, OneChain;
      RunReaches(cps, chain, trace, events, replies, c);
    }
  }

  lemma {:induction false} SoundOf(v: CheckpointVerifier)
    requires v.Valid()
    ensures Sound(v.checkpoints, v.Abs())
  {
  }

  lemma {:induction false} FrontierOf(v: CheckpointVerifier)
    requires v.Valid()
    ensures ValidCheckpoints(v.checkpoints) && v.epoch <= |v.okLog|
    ensures Frontier(v.checkpoints, v.progress, v.initialTipHash, v.baseHeight, v.baseHash, Blocks(v.okLog[v.epoch..]))
  {
  }

  /** Queueing a block keeps the queue valid and every request accounted for. */
  lemma {:induction false} QueueKeeps(cps: Checkpoints, q: Queue, accepted: map<nat, QueuedBlock>,
                                      answered: map<nat, Reply<Hash>>, b: QueuedBlock, e: Error)
    requires ValidCheckpoints(cps) && ValidQueue(cps, q) && Accounted(q, accepted, answered)
    requires b.tx !in accepted && b.block.height <= MaxHeight(cps)
    requires var list := EntryOrDefault(q, b.block.height);
             Match(list, b.block.hash).None? ==> |list| < MAX_QUEUED_BLOCKS_PER_HEIGHT
    ensures var list := EntryOrDefault(q, b.block.height);
            var q', older := q[b.block.height := Put(list, b)], Match(list, b.block.hash);
            && ValidQueue(cps, q')
            && (older.Some? ==> older.value.tx !in answered)
            && Accounted(q', accepted[b.tx := b], if older.Some? then answered[older.value.tx := Err(e)] else answered)
  {
    hide Match, Put, DistinctHashes, EntryOrDefault, ValidList;
    var h := b.block.height;
    var list := EntryOrDefault(q, h);
    var older := Match(list, b.block.hash);
    EntryValid(cps, q, accepted, answered, h);
    PutValid(list, b);
    PutAccounted(q, accepted, answered, b, e, list, Put(list, b));
  }

  lemma {:induction false} EntryValid(cps: Checkpoints, q: Queue, accepted: map<nat, QueuedBlock>,
                                      answered: map<nat, Reply<Hash>>, h: nat)
    requires ValidCheckpoints(cps) && ValidQueue(cps, q) && Accounted(q, accepted, answered)
    ensures var list := EntryOrDefault(q, h);
            && (list == [] || ValidList(list, h)) && (h in q ==> list == q[h]) && (h !in q ==> list == [])
            && forall b :: b in list ==> b.tx in accepted && accepted[b.tx] == b && b.tx !in answered
  {
    hide ValidList;
  }

  /** Replacing the list of one height by one with `b` in place of the block of the same hash, if any. */
  lemma {:induction false} PutAccounted(q: Queue, accepted: map<nat, QueuedBlock>, answered: map<nat, Reply<Hash>>,
                                        b: QueuedBlock, e: Error, list: seq<QueuedBlock>, list': seq<QueuedBlock>)
    requires Accounted(q, accepted, answered) && b.tx !in accepted
    requires if b.block.height in q then list == q[b.block.height] else list == []
    requires forall c :: c in list ==> c.tx in accepted && accepted[c.tx] == c
    requires forall c :: c in list' <==> c == b || (c in list && Match(list, b.block.hash) != Some(c))
    ensures var older := Match(list, b.block.hash);
            Accounted(q[b.block.height := list'], accepted[b.tx := b],
                      if older.Some? then answered[older.value.tx := Err(e)] else answered)
  {
    hide Match;
    var h, older := b.block.height, Match(list, b.block.hash);
    var q': Queue := q[h := list'];
    var accepted' := accepted[b.tx := b];
    var answered' := if older.Some? then answered[older.value.tx := Err(e)] else answered;
    forall g, c | g in q' && c in q'[g]
      ensures c.block.height == g && c.tx in accepted' && accepted'[c.tx] == c && c.tx !in answered'
    {
      if c != b {
        assert g in q && c in q[g];
      }
    }
    forall tx | tx in accepted' && tx !in answered' ensures Waiting(q', accepted'[tx]) {
      if tx != b.tx {
        assert Waiting(q, accepted[tx]);
      }
    }
  }

  lemma {:induction false} FrontierTipHash(cps: Checkpoints, target: nat, baseHeight: int, baseHash: Hash,
                                           bs: seq<Block>, tipHash: Option<Hash>)
    requires ValidCheckpoints(cps) && Frontier(cps, Advanced(cps, target), None, baseHeight, baseHash, bs)
    ensures Frontier(cps, Advanced(cps, target), tipHash, baseHeight, baseHash, bs)
  {
  }

  lemma {:induction false} OkLoggedErr(okLog: seq<QueuedBlock>, answered: map<nat, Reply<Hash>>, tx: nat, e: Error)
    requires OkLogged(okLog, answered) && tx !in answered
    ensures OkLogged(okLog, answered[tx := Err(e)])
  {
  }

  lemma {:induction false} OkLoggedSideChained(okLog: seq<QueuedBlock>, list: seq<QueuedBlock>, expected: Hash,
                                               before: map<nat, Reply<Hash>>, after: map<nat, Reply<Hash>>)
    requires OkLogged(okLog, before)
    ensures SideChained(list, expected, before, after) ==> OkLogged(okLog, after)
  {
    if SideChained(list, expected, before, after) {
      forall tx | tx in after && after[tx].Ok?
        ensures exists i :: 0 <= i < |okLog| && okLog[i].tx == tx
      {
        assert tx in before;
      }
    }
  }

  lemma {:induction false} SideChainedEmpty(expected: Hash, answered: map<nat, Reply<Hash>>)
    ensures SideChained([], expected, answered, answered) && Match([], expected) == None
  {
  }

  lemma {:induction false} SideChainedNext(list: seq<QueuedBlock>, i: nat, expected: Hash,
                                           accepted: map<nat, QueuedBlock>, before: map<nat, Reply<Hash>>,
                                           after: map<nat, Reply<Hash>>)
    requires i < |list| && DistinctHashes(list) && SideChained(list[..i], expected, before, after)
    requires forall b :: b in list ==> b.tx in accepted && accepted[b.tx] == b && b.tx !in before
    ensures list[i].tx !in after
    ensures var b := list[i];
            SideChained(list[..i + 1], expected, before,
                        if b.block.hash == expected then after
                        else after[b.tx := Err(UnexpectedSideChain(expected, b.block.hash))])
  {
    var b := list[i];
    assert b in list;
    assert list[..i + 1] == list[..i] + [b];
  }

  lemma {:induction false} MatchNext(list: seq<QueuedBlock>, i: nat, expected: Hash)
    requires i < |list| && DistinctHashes(list)
    ensures Match(list[..i + 1], expected) ==
            if list[i].block.hash == expected then Some(list[i]) else Match(list[..i], expected)
    ensures list[i].block.hash == expected ==> Match(list[..i], expected) == None
  {
    var m, m' := Match(list[..i], expected), Match(list[..i + 1], expected);
    assert list[..i + 1] == list[..i] + [list[i]];
    if m'.Some? {
      assert list[i] in list && m'.value in list;
      if m.Some? {
        assert m.value in list[..i + 1] && m.value in list;
        SameHash(list, m.value, m'.value);
      }
      if list[i].block.hash == expected {
        SameHash(list, list[i], m'.value);
      }
    } else {
      assert list[i] in list[..i + 1];
    }
  }

  lemma {:induction false} NoRoundAnswers(accepted: map<nat, QueuedBlock>, answered: map<nat, Reply<Hash>>)
    ensures RoundAnswers(accepted, answered, answered)
  {
  }

  lemma {:induction false} RoundAnswersAdd(accepted: map<nat, QueuedBlock>, before: map<nat, Reply<Hash>>,
                                           after: map<nat, Reply<Hash>>, b: QueuedBlock, r: Reply<Hash>)
    requires RoundAnswers(accepted, before, after) && b.tx !in after
    requires b.tx in accepted && accepted[b.tx] == b && RoundAnswer(b, r)
    ensures RoundAnswers(accepted, before, after[b.tx := r])
  {
  }

  lemma {:induction false} RoundAnswersOn(accepted: map<nat, QueuedBlock>, a: map<nat, Reply<Hash>>,
                                          b: map<nat, Reply<Hash>>, c: map<nat, Reply<Hash>>)
    requires RoundAnswers(accepted, a, b) && RoundAnswers(accepted, b, c)
    ensures RoundAnswers(accepted, a, c)
  {
    hide RoundAnswer;
  }

  /** Answering the side-chain blocks of one height. */
  lemma {:induction false} RoundAnswersSideChained(accepted: map<nat, QueuedBlock>, start: map<nat, Reply<Hash>>,
                                                   list: seq<QueuedBlock>, expected: Hash,
                                                   before: map<nat, Reply<Hash>>, after: map<nat, Reply<Hash>>)
    requires RoundAnswers(accepted, start, before) && SideChained(list, expected, before, after)
    requires forall b :: b in list ==> b.tx in accepted && accepted[b.tx] == b
    ensures RoundAnswers(accepted, start, after)
  {
    forall tx | tx in after && tx !in before ensures tx in accepted && RoundAnswer(accepted[tx], after[tx]) {
      var b :| b in list && b.block.hash != expected && b.tx == tx;
    }
    RoundAnswersOn(accepted, start, before, after);
  }

  lemma {:induction false} NothingAnswered(answered: map<nat, Reply<Hash>>)
    ensures Stay(answered, answered)
  {
  }

  lemma {:induction false} StayOn(a: map<nat, Reply<Hash>>, b: map<nat, Reply<Hash>>, c: map<nat, Reply<Hash>>)
    requires Stay(a, b) && Stay(b, c)
    ensures Stay(a, c)
  {
  }

  lemma {:induction false} AnsweredOn(accepted: map<nat, QueuedBlock>, a: map<nat, Reply<Hash>>,
                                      b: map<nat, Reply<Hash>>, c: map<nat, Reply<Hash>>)
    requires Stay(a, b) && RoundAnswers(accepted, b, c)
    ensures Stay(a, c)
  {
  }

  lemma {:induction false} RanNext(cps: Checkpoints, trace: seq<State>, events: seq<Event>, replies: seq<Reply<nat>>,
                                   e: Event, s: State, r: Reply<nat>)
    requires ValidCheckpoints(cps) && Ran(cps, trace, events, replies) && Called(cps, trace[|events|], e, s, r)
    ensures Ran(cps, trace + [s], events + [e], replies + [r])
  {
    hide Called;
    var trace', events', replies' := trace + [s], events + [e], replies + [r];
    forall i, j | 0 <= i < |events'| && j == i + 1
      ensures Called(cps, trace'[i], events'[i], trace'[j], replies'[i])
    {
      if i < |events| {
        assert Called(cps, trace[i], events[i], trace[j], replies[i]);
      }
    }
  }

  // The outcomes of one round.

  lemma {:induction false} RoundNothing(cps: Checkpoints, s: State)
    requires ValidProgress(cps, s.progress, s.tipHash)
    requires s.progress.FinalCheckpoint? || TargetOf(cps, s.queue, Low(cps, s.progress)).WaitingForBlocks?
    ensures Round(cps, s, s) && !RangePanics(cps, s.queue, s.progress, s.tipHash)
  {
  }

  lemma {:induction false} RoundPanics(cps: Checkpoints, s: State, target: nat)
    requires ValidProgress(cps, s.progress, s.tipHash) && !s.progress.FinalCheckpoint?
    requires TargetOf(cps, s.queue, Low(cps, s.progress)) == Checkpoint(target)
    ensures var w := RangeWalk(cps, s.queue, Low(cps, s.progress), target);
            RangePanics(cps, s.queue, s.progress, s.tipHash) <==>
            w.Mismatch? || (w.Linked? && w.parent != PreviousHash(cps, s.progress, s.tipHash))
  {
    hide RangeWalk;
  }

  lemma {:induction false} RoundBroken(cps: Checkpoints, s: State, target: nat, failed: nat, held: seq<QueuedBlock>,
                                       s': State)
    requires ValidProgress(cps, s.progress, s.tipHash) && !s.progress.FinalCheckpoint?
    requires TargetOf(cps, s.queue, Low(cps, s.progress)) == Checkpoint(target)
    requires RangeWalk(cps, s.queue, Low(cps, s.progress), target) == Broken(failed, held)
    requires |held| == target - failed && RoundAnswers(s.accepted, s.answered, s'.answered)
    requires s' == s.(queue := Narrow(s.queue, failed, target, held) - {failed}, answered := s'.answered)
    ensures Round(cps, s, s')
  {
    hide RangeWalk, Narrow, RoundAnswers;
  }

  lemma {:induction false} RoundComplete(cps: Checkpoints, s: State, target: nat, parent: Hash,
                                         held: seq<QueuedBlock>, s': State)
    requires ValidProgress(cps, s.progress, s.tipHash) && !s.progress.FinalCheckpoint?
    requires TargetOf(cps, s.queue, Low(cps, s.progress)) == Checkpoint(target)
    requires RangeWalk(cps, s.queue, Low(cps, s.progress), target) == Linked(held, parent)
    requires RoundAnswers(s.accepted, s.answered, s'.answered)
    requires s'.queue == Without(s.queue, Low(cps, s.progress), target)
    requires s'.progress == Advanced(cps, target) && s'.okLog == s.okLog + Reversed(held)
    requires s'.tipHash == if s'.progress.FinalCheckpoint? then s.tipHash else None
    requires s'.nextTx == s.nextTx && s'.accepted == s.accepted
    ensures Round(cps, s, s')
  {
    hide RangeWalk, Without, RoundAnswers;
  }
}
