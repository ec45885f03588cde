/** How far the rounds of the checkpoint verifier get: which checkpoints a run of requests reaches, and how foreign
  * blocks can keep it from reaching one. */
module CheckpointReach {
  import opened CheckpointRanges
  import opened CheckpointTypes
  import opened Integers
  import opened Options

  // -------------------------------------------------------------------------
  // How far the rounds get.

  /** The chain's own block waits at a height. */
  ghost predicate OwnQueued(chain: seq<Block>, q: Queue, h: nat)
    requires h < |chain|
  {
    h in q && exists b :: b in q[h] && b.block.hash == chain[h].hash
  }

  ghost predicate OwnUpTo(chain: seq<Block>, q: Queue, low: int, high: int)
    requires -1 <= low && high < |chain|
  {
    forall h :: low < h <= high ==> OwnQueued(chain, q, h)
  }

  /** On one chain a walk is complete exactly if the chain's own blocks wait at all its heights, and else it
    * breaks at the highest one where that is not so. */
  lemma {:induction false} DescendFinds(q: Queue, cps: Checkpoints, chain: seq<Block>, h: int, low: int, expected: Hash,
                                        held: seq<QueuedBlock>)
    requires ValidCheckpoints(cps) && OneChain(cps, chain) && NoCollisions(chain, q)
    requires -1 <= low <= h < |chain| && Covered(q, low, h) && expected == HashAt(chain, h)
    ensures var w := Descend(q, cps, h, low, expected, held);
            && !w.Mismatch? && (w.Linked? <==> OwnUpTo(chain, q, low, h))
            && (w.Broken? ==> low < w.height <= h && !OwnQueued(chain, q, w.height) && OwnUpTo(chain, q, w.height, h))
    decreases h - low
  {
    if h == low {
    } else {
      assert chain[h].height == h;
      var m := Match(q[h], expected);
      if m.Some? {
        assert OwnQueued(chain, q, h);
        assert NoCollision(chain, m.value.block);
        if h > 0 {
          assert chain[h].prevHash == chain[h - 1].hash;
        }
        DescendFinds(q, cps, chain, h - 1, low, m.value.block.prevHash, held + [m.value]);
        hide Descend, NoCollisions, OneChain;
        assert OwnUpTo(chain, q, low, h) <==> OwnUpTo(chain, q, low, h - 1);
      } else {
        assert !OwnQueued(chain, q, h);
      }
    }
  }

  /** If the chain's own blocks wait at all heights up to a checkpoint, then a round has a target at or above it.
    * The round verifies up to its target exactly if the chain's own blocks wait up to there. Otherwise it keeps
    * those up to the checkpoint and lowers the target, but not below the checkpoint. */
  lemma {:induction false} RoundOutcome(cps: Checkpoints, chain: seq<Block>, s: State, s': State, c: nat)
    requires Round(cps, s, s') && ValidQueue(cps, s.queue) && !s.progress.FinalCheckpoint?
    requires OnChain(cps, chain, s.queue, s.progress, s.tipHash)
    requires c in cps && Low(cps, s.progress) < c && OwnUpTo(chain, s.queue, Low(cps, s.progress), c)
    ensures var low := Low(cps, s.progress);
            var t := TargetOf(cps, s.queue, low);
            && t.Checkpoint? && c <= t.height < |chain|
            && (if OwnUpTo(chain, s.queue, low, t.height) then s'.progress == Advanced(cps, t.height)
                else
                  var t' := TargetOf(cps, s'.queue, low);
                  && s'.progress == s.progress && OwnUpTo(chain, s'.queue, low, c)
                  && t'.Checkpoint? && c <= t'.height < t.height)
  {
    var low := Low(cps, s.progress);
    var t := TargetOf(cps, s.queue, low);
    OwnCovers(cps, chain, s.queue, low, c);
    TargetFacts(cps, s.queue, low, t.height);
    assert chain[t.height].height == t.height;
    DescendFinds(s.queue, cps, chain, t.height, low, cps[t.height], []);
    if !OwnUpTo(chain, s.queue, low, t.height) {
      FailedRange(cps, s.queue, s.progress, s.tipHash, s.okLog, s'.queue, s'.progress, s'.tipHash, s'.okLog, t.height);
      FailedRangeTarget(cps, s.queue, s.progress, s.tipHash, s.okLog, s'.queue, s'.progress, s'.tipHash, s'.okLog,
                        t.height);
      var failed := RangeWalk(cps, s.queue, low, t.height).height;
      hide Round, Processed, RangeWalk, NoCollisions, OneChain, ValidQueue;
      assert c < failed;
      OwnKept(chain, s.queue, s'.queue, low, c);
      OwnCovers(cps, chain, s'.queue, low, c);
    }
  }

  lemma {:induction false} OwnKept(chain: seq<Block>, q: Queue, q': Queue, low: int, c: nat)
    requires -1 <= low && c < |chain| && OwnUpTo(chain, q, low, c)
    requires forall h :: h in q && low < h <= c ==> h in q' && q'[h] == q[h]
    ensures OwnUpTo(chain, q', low, c)
  {
    forall h | low < h <= c ensures OwnQueued(chain, q', h) {
      assert OwnQueued(chain, q, h);
    }
  }

  lemma {:induction false} OwnCovers(cps: Checkpoints, chain: seq<Block>, q: Queue, low: int, c: nat)
    requires -1 <= low < c < |chain| && c in cps && OwnUpTo(chain, q, low, c)
    ensures var t := TargetOf(cps, q, low); t.Checkpoint? && c <= t.height
  {
    forall h | low < h <= c ensures h in q {
      assert OwnQueued(chain, q, h);
    }
    CoveredTarget(cps, q, low, c);
  }

  lemma {:induction false} HighestCovered(cps: Checkpoints, q: Queue, low: int, c: nat) returns (m: nat)
    requires c in cps && low < c && Covered(q, low, c)
    ensures c <= m && IsTarget(cps, q, low, Checkpoint(m))
  {
    hide Covered;
    var covered := set k | k in cps.Keys && low < k && Covered(q, low, k);
    assert c in covered;
    GreatestExists(covered);
    m :| m in covered && forall k :: k in covered ==> k <= m;
    forall k | k in cps && k > m ensures !Covered(q, low, k) {
      assert k !in covered;
    }
  }

  /** If the queue covers a checkpoint, the target is at or above it. */
  lemma {:induction false} CoveredTarget(cps: Checkpoints, q: Queue, low: int, c: nat)
    requires c in cps && low < c && Covered(q, low, c)
    ensures var t := TargetOf(cps, q, low); t.Checkpoint? && c <= t.height
  {
    hide Covered;
    var m := HighestCovered(cps, q, low, c);
    TargetUniqueOf(cps, q, low, Checkpoint(m));
  }

  lemma {:induction false} ProcessedValid(cps: Checkpoints, s: State, s': State)
    requires Round(cps, s, s') && ValidQueue(cps, s.queue)
    ensures ValidQueue(cps, s'.queue) && Low(cps, s.progress) <= Low(cps, s'.progress)
  {
    hide Descend, Match, DistinctHashes, Narrow;
    var low := Low(cps, s.progress);
    var t := TargetOf(cps, s.queue, low);
    if !s.progress.FinalCheckpoint? && t.Checkpoint? && RangeWalk(cps, s.queue, low, t.height).Broken? {
      FailedRange(cps, s.queue, s.progress, s.tipHash, s.okLog, s'.queue, s'.progress, s'.tipHash, s'.okLog, t.height);
      NarrowedValid(cps, s.queue, RangeWalk(cps, s.queue, low, t.height).height, t.height, s'.queue);
    }
  }

  lemma {:induction false} NarrowedValid(cps: Checkpoints, q: Queue, failed: nat, target: nat, q': Queue)
    requires ValidCheckpoints(cps) && ValidQueue(cps, q) && Narrowed(cps, q, failed, target, q')
    ensures ValidQueue(cps, q')
  {
    forall h | h in q' ensures h <= MaxHeight(cps) && ValidList(q'[h], h) {
      assert ValidList(q[h], h);
    }
  }

  /** The queue stays valid when a block is admitted, and a block of the chain that waits still does. */
  lemma {:induction false} EnqueuedValid(cps: Checkpoints, s: State, req: Request)
    requires ValidCheckpoints(cps) && ValidQueue(cps, s.queue) && Admit(cps, s.progress, s.queue, req).Ok?
    ensures ValidQueue(cps, Enqueued(s, Admit(cps, s.progress, s.queue, req).value).queue)
  {
    var block := Admit(cps, s.progress, s.queue, req).value;
    var b, list := QueuedBlock(block, s.nextTx), EntryOrDefault(s.queue, block.height);
    assert block.height in s.queue ==> ValidList(s.queue[block.height], block.height);
    hide ValidList, Put, Match, DistinctHashes;
    PutValid(list, b);
  }

  lemma {:induction false} EnqueuedOwn(chain: seq<Block>, s: State, block: Block, h: nat)
    requires h < |chain| && OwnQueued(chain, s.queue, h)
    ensures OwnQueued(chain, Enqueued(s, block).queue, h)
  {
    if h == block.height {
      var b :| b in s.queue[h] && b.block.hash == chain[h].hash;
      PutKeepsHash(s.queue[h], QueuedBlock(block, s.nextTx), b);
    }
  }

  lemma {:induction false} PutKeepsHash(list: seq<QueuedBlock>, b: QueuedBlock, c: QueuedBlock)
    requires c in list
    ensures exists d :: d in Put(list, b) && d.block.hash == c.block.hash
  {
    if list[0].block.hash == b.block.hash {
      if c == list[0] {
        assert b in Put(list, b);
      } else {
        assert c in list[1..];
        assert c in Put(list, b);
      }
    } else if c == list[0] {
      assert c in Put(list, b);
    } else {
      assert c in list[1..];
      PutKeepsHash(list[1..], b, c);
      var d :| d in Put(list[1..], b) && d.block.hash == c.block.hash;
      assert d in Put(list, b);
    }
  }

  // -------------------------------------------------------------------------
  // Any requests that do not collide with one chain.

  /** What every call without a reset keeps: all blocks are compatible with one chain. */
  ghost predicate Compatible(cps: Checkpoints, chain: seq<Block>, s: State) {
    && ValidProgress(cps, s.progress, s.tipHash) && ValidQueue(cps, s.queue)
    && OnChain(cps, chain, s.queue, s.progress, s.tipHash)
  }

  /** A round verifies up to its target exactly if the chain's own blocks wait up to there. Otherwise it changes no
    * progress. */
  lemma {:induction false} RoundAdvances(cps: Checkpoints, chain: seq<Block>, s: State, s': State)
    requires Compatible(cps, chain, s) && Round(cps, s, s') && !s.progress.FinalCheckpoint?
    ensures var low := Low(cps, s.progress);
            var t := TargetOf(cps, s.queue, low);
            if t.Checkpoint? && t.height < |chain| && OwnUpTo(chain, s.queue, low, t.height)
            then s'.progress == Advanced(cps, t.height)
            else s'.progress == s.progress
    ensures Compatible(cps, chain, s')
  {
    var low := Low(cps, s.progress);
    var t := TargetOf(cps, s.queue, low);
    ProcessedValid(cps, s, s');
    OnChainKept(cps, chain, s.queue, s.progress, s.tipHash, s.okLog, s'.queue, s'.progress, s'.tipHash, s'.okLog);
    if t.Checkpoint? {
      TargetFacts(cps, s.queue, low, t.height);
      assert chain[t.height].height == t.height;
      DescendFinds(s.queue, cps, chain, t.height, low, cps[t.height], []);
    }
    hide ValidQueue, OnChain, OwnUpTo, Descend, IsTarget;
  }

  /** The call queues its block, and then the chain's own blocks wait up to the target. */
  ghost predicate Completes(cps: Checkpoints, chain: seq<Block>, s: State, e: Event)
    requires ValidCheckpoints(cps)
  {
    var admitted := Admit(cps, s.progress, s.queue, e.request);
    && !s.progress.FinalCheckpoint? && admitted.Ok?
    && var q, low := Enqueued(s, admitted.value).queue, Low(cps, s.progress);
       var t := TargetOf(cps, q, low);
       t.Checkpoint? && t.height < |chain| && OwnUpTo(chain, q, low, t.height)
  }

  /** The target that a call finds after queueing its block. */
  ghost function TargetAfter(cps: Checkpoints, s: State, e: Event): Target
    requires ValidCheckpoints(cps) && Admit(cps, s.progress, s.queue, e.request).Ok?
  {
    TargetOf(cps, Enqueued(s, Admit(cps, s.progress, s.queue, e.request).value).queue, Low(cps, s.progress))
  }

  /** A call moves progress to its target exactly if it completes the chain's own blocks up to there. */
  lemma {:induction false} CallAdvances(cps: Checkpoints, chain: seq<Block>, s: State, e: Event, s': State,
                                        r: Reply<nat>)
    requires Compatible(cps, chain, s) && e.reset.None? && GoodEvent(chain, e) && Called(cps, s, e, s', r)
    ensures Compatible(cps, chain, s')
    ensures if Completes(cps, chain, s, e)
            then s'.progress == Advanced(cps, TargetAfter(cps, s, e).height)
                 && Low(cps, s.progress) < TargetAfter(cps, s, e).height == Low(cps, s'.progress)
            else s'.progress == s.progress
  {
    var admitted := Admit(cps, s.progress, s.queue, e.request);
    if s.progress.FinalCheckpoint? || admitted.Err? {
    } else {
      var s1 := Enqueued(s, admitted.value);
      EnqueuedValid(cps, s, e.request);
      PutNoCollision(chain, s.queue, QueuedBlock(admitted.value, s.nextTx), s1.queue);
      assert Compatible(cps, chain, s1);
      RoundAdvances(cps, chain, s1, s');
      hide Compatible, Round, OwnUpTo, Put, Match, Admit, GoodEvent;
    }
  }

  /** The call completes a range that ends at or above `c`. */
  ghost predicate CompletesTo(cps: Checkpoints, chain: seq<Block>, s: State, e: Event, c: nat)
    requires ValidCheckpoints(cps)
  {
    Completes(cps, chain, s, e) && c <= TargetAfter(cps, s, e).height
  }

  /** One of the first `n` calls completes a range that ends at or above `c`. */
  ghost predicate CompletedBy(cps: Checkpoints, chain: seq<Block>, trace: seq<State>, events: seq<Event>, n: nat,
                              c: nat)
    requires ValidCheckpoints(cps) && n <= |events| < |trace|
  {
    exists i :: 0 <= i < n && CompletesTo(cps, chain, trace[i], events[i], c)
  }

  ghost predicate GoodRun(cps: Checkpoints, chain: seq<Block>, trace: seq<State>, events: seq<Event>,
                          replies: seq<Reply<nat>>)
    requires ValidCheckpoints(cps)
  {
    && Ran(cps, trace, events, replies) && Compatible(cps, chain, trace[0])
    && forall i :: 0 <= i < |events| ==> events[i].reset.None? && GoodEvent(chain, events[i])
  }

  /** Over every run of requests that do not collide with the chain, whatever blocks they are for: a checkpoint has been
    * reached if and only if some call queued a block after which the chain's own blocks waited up to the target, and
    * that target was at or above the checkpoint. */
  lemma {:induction false} ReachedExactly(cps: Checkpoints, chain: seq<Block>, trace: seq<State>, events: seq<Event>,
                                          replies: seq<Reply<nat>>, n: nat, c: nat)
    requires ValidCheckpoints(cps) && GoodRun(cps, chain, trace, events, replies) && n <= |events|
    requires Low(cps, trace[0].progress) < c
    ensures Compatible(cps, chain, trace[n])
    ensures c <= Low(cps, trace[n].progress) <==> CompletedBy(cps, chain, trace, events, n, c)
  {
    if n == 0 {
    } else {
      var m := n - 1;
      ReachedExactly(cps, chain, trace, events, replies, m, c);
      assert Called(cps, trace[m], events[m], trace[n], replies[m]);
      CallAdvances(cps, chain, trace[m], events[m], trace[n], replies[m]);
      CompletedLast(cps, chain, trace, events, n, c);
      hide Called, Completes, Compatible, CompletedBy, Ran;
    }
  }

  lemma {:induction false} CompletedLast(cps: Checkpoints, chain: seq<Block>, trace: seq<State>, events: seq<Event>,
                                         n: nat, c: nat)
    requires ValidCheckpoints(cps) && 0 < n <= |events| < |trace|
    ensures CompletedBy(cps, chain, trace, events, n, c) <==>
            CompletedBy(cps, chain, trace, events, n - 1, c) ||
            CompletesTo(cps, chain, trace[n - 1], events[n - 1], c)
  {
    hide CompletesTo;
  }

  /** One call keeps the chain's own blocks waiting up to a checkpoint, or reaches the checkpoint. */
  lemma {:induction false} CallWaits(cps: Checkpoints, chain: seq<Block>, s: State, e: Event, s': State,
                                     r: Reply<nat>, c: nat)
    requires Compatible(cps, chain, s) && e.reset.None? && GoodEvent(chain, e) && Called(cps, s, e, s', r)
    requires c in cps && Low(cps, s.progress) < c && OwnUpTo(chain, s.queue, Low(cps, s.progress), c)
    ensures if Completes(cps, chain, s, e) then c <= Low(cps, s'.progress)
            else s'.progress == s.progress && OwnUpTo(chain, s'.queue, Low(cps, s'.progress), c)
  {
    var low := Low(cps, s.progress);
    CallAdvances(cps, chain, s, e, s', r);
    var admitted := Admit(cps, s.progress, s.queue, e.request);
    if admitted.Ok? {
      var s1 := Enqueued(s, admitted.value);
      forall h | low < h <= c ensures OwnQueued(chain, s1.queue, h) {
        assert OwnQueued(chain, s.queue, h);
        EnqueuedOwn(chain, s, admitted.value, h);
      }
      EnqueuedValid(cps, s, e.request);
      PutNoCollision(chain, s.queue, QueuedBlock(admitted.value, s.nextTx), s1.queue);
      RoundOutcome(cps, chain, s1, s', c);
      hide Round, Put, Match, Admit, GoodEvent, OnChain, ValidQueue, OwnQueued;
    }
  }

  /** Once the chain's own blocks wait up to a checkpoint they keep waiting until it is reached, and it is reached
    * exactly by the first call that completes a range. */
  lemma {:induction false} WaitsUntilReached(cps: Checkpoints, chain: seq<Block>, trace: seq<State>,
                                             events: seq<Event>, replies: seq<Reply<nat>>, n: nat, c: nat)
    requires ValidCheckpoints(cps) && GoodRun(cps, chain, trace, events, replies) && n <= |events|
    requires c in cps && Low(cps, trace[0].progress) < c < |chain|
    requires OwnUpTo(chain, trace[0].queue, Low(cps, trace[0].progress), c)
    ensures if exists i :: 0 <= i < n && Completes(cps, chain, trace[i], events[i])
            then c <= Low(cps, trace[n].progress)
            else trace[n].progress == trace[0].progress
                 && OwnUpTo(chain, trace[n].queue, Low(cps, trace[0].progress), c)
  {
    if n == 0 {
    } else {
      var m := n - 1;
      WaitsUntilReached(cps, chain, trace, events, replies, m, c);
      ReachedExactly(cps, chain, trace, events, replies, m, c);
      assert Called(cps, trace[m], events[m], trace[n], replies[m]);
      hide Called, Completes, Compatible, CompletedBy, Ran, OwnUpTo;
      if exists i :: 0 <= i < m && Completes(cps, chain, trace[i], events[i]) {
        var i :| 0 <= i < m && Completes(cps, chain, trace[i], events[i]);
        CallAdvances(cps, chain, trace[m], events[m], trace[n], replies[m]);
      } else {
        CallWaits(cps, chain, trace[m], events[m], trace[n], replies[m], c);
        assert (exists i :: 0 <= i < n && Completes(cps, chain, trace[i], events[i])) <==>
               Completes(cps, chain, trace[m], events[m]);
      }
    }
  }

  // -------------------------------------------------------------------------
  // How a foreign block stalls the verifier.

  /** Only the height `f` is missing below the target `t`, and above it the chain's own blocks wait alone. */
  ghost predicate Stalled(cps: Checkpoints, chain: seq<Block>, s: State, f: nat, t: nat) {
    && Compatible(cps, chain, s) && !s.progress.FinalCheckpoint?
    && t in cps && Low(cps, s.progress) < f <= t < |chain| && f !in s.queue
    && (forall h :: Low(cps, s.progress) < h <= t && h != f ==> h in s.queue)
    && (forall h :: f < h <= t && h in s.queue ==> |s.queue[h]| == 1 && OwnQueued(chain, s.queue, h))
    && (forall c :: c in cps && c > t ==> exists h :: Low(cps, s.progress) < h <= c && h != f && h !in s.queue)
  }

  /** A request for a valid block of a height that is not the chain's own. */
  ghost predicate ForeignEvent(chain: seq<Block>, e: Event, f: nat)
    requires f < |chain|
  {
    && e.reset.None? && GoodEvent(chain, e) && e.request.valid
    && e.request.coinbaseHeight == Some(f) && e.request.hash != chain[f].hash
  }

  /** A round whose range lacks the chain's own block at one height only takes away what waits there. */
  lemma {:induction false} RoundBreaks(cps: Checkpoints, chain: seq<Block>, s: State, s': State, f: nat, t: nat)
    requires Compatible(cps, chain, s) && Round(cps, s, s') && !s.progress.FinalCheckpoint?
    requires Low(cps, s.progress) < f <= t < |chain| && IsTarget(cps, s.queue, Low(cps, s.progress), Checkpoint(t))
    requires !OwnQueued(chain, s.queue, f)
    requires forall h :: f < h <= t && h in s.queue ==> |s.queue[h]| == 1 && OwnQueued(chain, s.queue, h)
    ensures s'.queue == s.queue - {f} && s'.progress == s.progress && s'.tipHash == s.tipHash
  {
    var low := Low(cps, s.progress);
    TargetUniqueOf(cps, s.queue, low, Checkpoint(t));
    TargetFacts(cps, s.queue, low, t);
    assert chain[t].height == t;
    DescendFinds(s.queue, cps, chain, t, low, cps[t], []);
    var w := RangeWalk(cps, s.queue, low, t);
    assert w.Broken? && w.height == f;
    FailedRange(cps, s.queue, s.progress, s.tipHash, s.okLog, s'.queue, s'.progress, s'.tipHash, s'.okLog, t);
    NarrowedSingles(cps, s.queue, f, t, s'.queue);
  }

  lemma {:induction false} NarrowedSingles(cps: Checkpoints, q: Queue, f: nat, t: nat, q': Queue)
    requires Narrowed(cps, q, f, t, q')
    requires forall h :: f < h <= t && h in q ==> |q[h]| == 1
    ensures q' == q - {f}
  {
    forall h | h in q' ensures h in q && h != f && q'[h] == q[h] {
      if f < h <= t {
        assert q'[h][0] in q[h];
        assert q'[h] == [q'[h][0]] && q[h] == [q[h][0]];
      }
    }
    forall h | h in q && h != f ensures h in q' {
    }
  }

  lemma {:induction false} ForeignAdmitted(cps: Checkpoints, chain: seq<Block>, s: State, e: Event, f: nat)
    requires ValidCheckpoints(cps) && f < |chain| && ForeignEvent(chain, e, f) && f !in s.queue
    requires Low(cps, s.progress) < f <= MaxHeight(cps)
    ensures var admitted := Admit(cps, s.progress, s.queue, e.request);
            && admitted.Ok? && admitted.value.height == f && admitted.value.hash == e.request.hash
            && NoCollision(chain, admitted.value)
            && Enqueued(s, admitted.value).queue == s.queue[f := [QueuedBlock(admitted.value, s.nextTx)]]
  {
  }

  /** The state after a foreign block is queued in a stalled verifier. */
  lemma {:induction false} StallEnqueued(cps: Checkpoints, chain: seq<Block>, s: State, b: QueuedBlock, q: Queue,
                                         f: nat, t: nat)
    requires Stalled(cps, chain, s, f, t) && q == s.queue[f := [b]] && b.block.hash != chain[f].hash
    ensures IsTarget(cps, q, Low(cps, s.progress), Checkpoint(t)) && !OwnQueued(chain, q, f)
    ensures forall h :: f < h <= t && h in q ==> |q[h]| == 1 && OwnQueued(chain, q, h)
  {
    assert ValidCheckpoints(cps);
    hide Compatible, IsTarget;
    StallTarget(cps, s.queue, q, Low(cps, s.progress), f, t);
    forall h | f < h <= t && h in q ensures |q[h]| == 1 && OwnQueued(chain, q, h) {
      assert q[h] == s.queue[h] && OwnQueued(chain, s.queue, h);
    }
  }

  /** A foreign block at the missing height is queued, breaks the next round and is thrown out by it: the queue and the
    * progress are as before. */
  lemma {:induction false} StallStep(cps: Checkpoints, chain: seq<Block>, s: State, e: Event, s': State, r: Reply<nat>,
                                     f: nat, t: nat)
    requires Stalled(cps, chain, s, f, t) && ForeignEvent(chain, e, f) && Called(cps, s, e, s', r)
    ensures r.Ok? && s'.queue == s.queue && s'.progress == s.progress && s'.tipHash == s.tipHash
  {
    hide CheckHeight, OwnQueued, IsTarget, ValidQueue, NoCollisions, OneChain, Put, Match, Round;
    ForeignAdmitted(cps, chain, s, e, f);
    hide Admit;
    var block := Admit(cps, s.progress, s.queue, e.request).value;
    var b, s1 := QueuedBlock(block, s.nextTx), Enqueued(s, block);
    EnqueuedValid(cps, s, e.request);
    PutNoCollision(chain, s.queue, b, s1.queue);
    StallEnqueued(cps, chain, s, b, s1.queue, f, t);
    RoundBreaks(cps, chain, s1, s', f, t);
    assert s.queue[f := [b]] - {f} == s.queue;
  }

  lemma {:induction false} StallTarget(cps: Checkpoints, q: Queue, q': Queue, low: int, f: nat, t: nat)
    requires t in cps && low < f <= t && q'.Keys == q.Keys + {f}
    requires forall h :: low < h <= t && h != f ==> h in q
    requires forall c :: c in cps && c > t ==> exists h :: low < h <= c && h != f && h !in q
    ensures IsTarget(cps, q', low, Checkpoint(t))
  {
    forall c | c in cps && c > t ensures !Covered(q', low, c) {
      var h: int :| low < h <= c && h != f && h !in q;
      assert h !in q'.Keys;
    }
  }

  /** So over any number of such requests, all of them accepted, nothing more is verified. */
  lemma {:induction false} StallsForever(cps: Checkpoints, chain: seq<Block>, trace: seq<State>, events: seq<Event>,
                                         replies: seq<Reply<nat>>, f: nat, t: nat, n: nat)
    requires ValidCheckpoints(cps) && Ran(cps, trace, events, replies) && n <= |events|
    requires Stalled(cps, chain, trace[0], f, t)
    requires forall i :: 0 <= i < |events| ==> ForeignEvent(chain, events[i], f)
    ensures trace[n].queue == trace[0].queue && trace[n].progress == trace[0].progress
    ensures trace[n].tipHash == trace[0].tipHash && forall i :: 0 <= i < n ==> replies[i].Ok?
  {
    if n == 0 {
    } else {
      var m := n - 1;
      StallsForever(cps, chain, trace, events, replies, f, t, m);
      assert Called(cps, trace[m], events[m], trace[n], replies[m]);
      assert Stalled(cps, chain, trace[m], f, t);
      hide Called, Stalled, ForeignEvent, Ran;
      StallStep(cps, chain, trace[m], events[m], trace[n], replies[m], f, t);
    }
  }

  /** As long as the next height is missing, a block at a new height is only queued. */
  lemma {:induction false} WaitStep(cps: Checkpoints, s: State, e: Event, s': State, r: Reply<nat>)
    requires ValidCheckpoints(cps) && ValidProgress(cps, s.progress, s.tipHash) && !s.progress.FinalCheckpoint?
    requires Called(cps, s, e, s', r) && e.reset.None? && e.request.valid && e.request.coinbaseHeight.Some?
    requires var h := e.request.coinbaseHeight.value;
             h !in s.queue && Low(cps, s.progress) + 1 < h <= MaxHeight(cps) && Low(cps, s.progress) + 1 !in s.queue
    ensures var block := Block(e.request.coinbaseHeight.value, e.request.hash, e.request.prevHash, e.request.body);
            && s'.queue == s.queue[block.height := [QueuedBlock(block, s.nextTx)]]
            && s'.progress == s.progress && s'.tipHash == s.tipHash
  {
    var low := Low(cps, s.progress);
    var block := Admit(cps, s.progress, s.queue, e.request).value;
    var s1 := Enqueued(s, block);
    forall c | c in cps && c > low ensures !Covered(s1.queue, low, c) {
      assert low + 1 !in s1.queue;
    }
    TargetUniqueOf(cps, s1.queue, low, WaitingForBlocks);
  }

  lemma {:induction false} RanSplit(cps: Checkpoints, trace: seq<State>, events: seq<Event>, replies: seq<Reply<nat>>,
                                    k: nat)
    requires ValidCheckpoints(cps) && Ran(cps, trace, events, replies) && k <= |events|
    ensures Ran(cps, trace[..k + 1], events[..k], replies[..k]) && Ran(cps, trace[k..], events[k..], replies[k..])
  {
    hide Called;
    forall i, j | 0 <= i < |events| - k && j == i + 1
      ensures Called(cps, trace[k..][i], events[k..][i], trace[k..][j], replies[k..][i])
    {
      assert Called(cps, trace[k + i], events[k + i], trace[k + j], replies[k + i]);
    }
  }

  // A verifier that stalls: the checkpoints are at heights 0, 1 and 3, and the state is at height 0.

  function SampleCheckpoints(): Checkpoints {
    map[0 := 1, 1 := 2, 3 := 4]
  }

  function SampleChain(): seq<Block> {
    [Block(0, 1, 0, 0), Block(1, 2, 1, 0), Block(2, 3, 2, 0), Block(3, 4, 3, 0)]
  }

  function OwnRequest(h: nat): Event {
    Event(None, Request(Some(h), h + 1, h, 0, true))
  }

  /** A block that extends the block of height 1, but is not the chain's own. */
  function ForeignRequest(): Event {
    Event(None, Request(Some(2), 100, 2, 0, true))
  }

  function Foreigners(n: nat): seq<Event> {
    seq(n, i => ForeignRequest())
  }

  /** A foreign block of height 2, the chain's own blocks of heights 3 and 1, and then the foreign block again and
    * again. */
  function StallEvents(n: nat): seq<Event> {
    [ForeignRequest(), OwnRequest(3), OwnRequest(1)] + Foreigners(n)
  }

  lemma {:induction false} SampleFacts()
    ensures ValidCheckpoints(SampleCheckpoints()) && MaxHeight(SampleCheckpoints()) == 3
    ensures OneChain(SampleCheckpoints(), SampleChain()) && TipOnChain(SampleChain(), Some((0, 1)))
    ensures ForeignEvent(SampleChain(), ForeignRequest(), 2)
    ensures GoodEvent(SampleChain(), OwnRequest(1)) && GoodEvent(SampleChain(), OwnRequest(3))
  {
    assert MaxHeight(SampleCheckpoints()) in SampleCheckpoints() && 3 in SampleCheckpoints();
  }

  lemma {:induction false} SampleStart()
    ensures var s := Start(SampleCheckpoints(), Some((0, 1)));
            Compatible(SampleCheckpoints(), SampleChain(), s) && s.progress == InitialTip(0) && s.queue == map[]
  {
    SampleFacts();
  }

  /** After the first three requests the verifier is stalled, although the block of the checkpoint at height 1 waits. */
  lemma {:induction false} SampleStalls(trace: seq<State>, replies: seq<Reply<nat>>)
    requires Ran(SampleCheckpoints(), trace, [ForeignRequest(), OwnRequest(3), OwnRequest(1)], replies)
    requires trace[0] == Start(SampleCheckpoints(), Some((0, 1)))
    ensures Stalled(SampleCheckpoints(), SampleChain(), trace[3], 2, 3)
    ensures trace[3].progress == InitialTip(0) && OwnQueued(SampleChain(), trace[3].queue, 1)
  {
    var cps, chain := SampleCheckpoints(), SampleChain();
    SampleFacts();
    SampleStart();
    var s0, s1, s2, s3 := trace[0], trace[1], trace[2], trace[3];
    assert Called(cps, s0, ForeignRequest(), s1, replies[0]);
    assert Called(cps, s1, OwnRequest(3), s2, replies[1]);
    assert Called(cps, s2, OwnRequest(1), s3, replies[2]);
    hide Called, Compatible, OneChain, GoodEvent, NoCollision;
    CallAdvances(cps, chain, s0, ForeignRequest(), s1, replies[0]);
    SampleWaits(s0, s1, replies[0], s2, replies[1]);
    CallAdvances(cps, chain, s1, OwnRequest(3), s2, replies[1]);
    CallAdvances(cps, chain, s2, OwnRequest(1), s3, replies[2]);
    SampleBreaks(s2, s3, replies[2]);
  }

  lemma {:induction false} SampleWaits(s0: State, s1: State, r1: Reply<nat>, s2: State, r2: Reply<nat>)
    requires ValidCheckpoints(SampleCheckpoints()) && ValidProgress(SampleCheckpoints(), s0.progress, s0.tipHash)
    requires s0.progress == InitialTip(0) && s0.queue == map[]
    requires Called(SampleCheckpoints(), s0, ForeignRequest(), s1, r1)
    requires Called(SampleCheckpoints(), s1, OwnRequest(3), s2, r2)
    ensures s2.progress == InitialTip(0) && s2.tipHash == s0.tipHash && s2.queue.Keys == {2, 3}
    ensures s2.queue[2] == [QueuedBlock(Block(2, 100, 2, 0), s0.nextTx)]
    ensures |s2.queue[3]| == 1 && s2.queue[3][0].block == SampleChain()[3]
  {
    SampleFacts();
    hide Called;
    WaitStep(SampleCheckpoints(), s0, ForeignRequest(), s1, r1);
    WaitStep(SampleCheckpoints(), s1, OwnRequest(3), s2, r2);
  }

  lemma {:induction false} SampleBreaks(s: State, s': State, r: Reply<nat>)
    requires Compatible(SampleCheckpoints(), SampleChain(), s) && Compatible(SampleCheckpoints(), SampleChain(), s')
    requires s.progress == InitialTip(0) && s.queue.Keys == {2, 3} && |s.queue[2]| == 1 && |s.queue[3]| == 1
    requires s.queue[2][0].block.hash == 100 && s.queue[3][0].block == SampleChain()[3]
    requires Called(SampleCheckpoints(), s, OwnRequest(1), s', r)
    ensures Stalled(SampleCheckpoints(), SampleChain(), s', 2, 3)
    ensures s'.progress == InitialTip(0) && OwnQueued(SampleChain(), s'.queue, 1)
  {
    hide Compatible, Round, Called, Admit, Enqueued;
    var cps, chain := SampleCheckpoints(), SampleChain();
    SampleQueued(s);
    CalledOk(cps, s, OwnRequest(1), s', r, chain[1]);
    SampleRound(Enqueued(s, chain[1]), s');
    SampleStalled(s', QueuedBlock(chain[1], s.nextTx));
  }

  lemma {:induction false} CalledOk(cps: Checkpoints, s: State, e: Event, s': State, r: Reply<nat>, block: Block)
    requires ValidCheckpoints(cps) && Called(cps, s, e, s', r) && e.reset.None? && !s.progress.FinalCheckpoint?
    requires Admit(cps, s.progress, s.queue, e.request) == Ok(block)
    ensures Round(cps, Enqueued(s, block), s')
  {
    hide Admit, Round, Enqueued;
  }

  lemma {:induction false} SampleRound(s: State, s': State)
    requires Compatible(SampleCheckpoints(), SampleChain(), s) && Round(SampleCheckpoints(), s, s')
    requires s.progress == InitialTip(0) && s.queue.Keys == {1, 2, 3} && |s.queue[2]| == 1 && |s.queue[3]| == 1
    requires s.queue[2][0].block.hash == 100 && s.queue[3][0].block == SampleChain()[3]
    ensures s'.queue == s.queue - {2} && s'.progress == s.progress
  {
    SampleTarget(s.queue);
    hide Compatible, Round, IsTarget;
    SampleSingles(s.queue);
    RoundBreaks(SampleCheckpoints(), SampleChain(), s, s', 2, 3);
  }

  lemma {:induction false} SampleSingles(q: Queue)
    requires q.Keys == {1, 2, 3} && |q[2]| == 1 && |q[3]| == 1
    requires q[2][0].block.hash == 100 && q[3][0].block == SampleChain()[3]
    ensures !OwnQueued(SampleChain(), q, 2)
    ensures forall h :: 2 < h <= 3 && h in q ==> |q[h]| == 1 && OwnQueued(SampleChain(), q, h)
  {
    assert q[3][0] in q[3];
  }

  lemma {:induction false} SampleQueued(s: State)
    requires Compatible(SampleCheckpoints(), SampleChain(), s) && s.progress == InitialTip(0) && 1 !in s.queue
    ensures Admit(SampleCheckpoints(), s.progress, s.queue, OwnRequest(1).request) == Ok(SampleChain()[1])
    ensures var b, s1 := QueuedBlock(SampleChain()[1], s.nextTx), Enqueued(s, SampleChain()[1]);
            && s1.queue == s.queue[1 := [b]] && s1.progress == s.progress && s1.tipHash == s.tipHash
            && Compatible(SampleCheckpoints(), SampleChain(), s1)
  {
    var cps, chain := SampleCheckpoints(), SampleChain();
    SampleFacts();
    EnqueuedValid(cps, s, OwnRequest(1).request);
    PutNoCollision(chain, s.queue, QueuedBlock(chain[1], s.nextTx), Enqueued(s, chain[1]).queue);
    hide ValidQueue, OneChain, NoCollisions;
  }

  lemma {:induction false} SampleTarget(q: Queue)
    requires q.Keys == {1, 2, 3}
    ensures IsTarget(SampleCheckpoints(), q, 0, Checkpoint(3))
  {
    forall h | 0 < h <= 3 ensures h in q {
      assert h in q.Keys;
    }
  }

  lemma {:induction false} SampleStalled(s: State, b: QueuedBlock)
    requires Compatible(SampleCheckpoints(), SampleChain(), s) && s.progress == InitialTip(0)
    requires s.queue.Keys == {1, 3} && s.queue[1] == [b] && b.block.hash == SampleChain()[1].hash
    requires |s.queue[3]| == 1 && s.queue[3][0].block == SampleChain()[3]
    ensures Stalled(SampleCheckpoints(), SampleChain(), s, 2, 3) && OwnQueued(SampleChain(), s.queue, 1)
  {
    SampleFacts();
    hide Compatible;
    assert b in s.queue[1] && s.queue[3][0] in s.queue[3];
    forall h | 0 < h <= 3 && h != 2 ensures h in s.queue {
      assert h in s.queue.Keys;
    }
  }

  /** However often the foreign block is requested again, the checkpoint at height 1 is not reached. */
  lemma {:induction false} SampleNeverReaches(trace: seq<State>, replies: seq<Reply<nat>>, n: nat)
    requires Ran(SampleCheckpoints(), trace, StallEvents(n), replies)
    requires trace[0] == Start(SampleCheckpoints(), Some((0, 1)))
    ensures trace[n + 3].progress == InitialTip(0) && OwnQueued(SampleChain(), trace[n + 3].queue, 1)
  {
    var cps := SampleCheckpoints();
    SampleFacts();
    RanSplit(cps, trace, StallEvents(n), replies, 3);
    assert StallEvents(n)[..3] == [ForeignRequest(), OwnRequest(3), OwnRequest(1)];
    assert StallEvents(n)[3..] == Foreigners(n);
    hide Ran, Stalled, ForeignEvent;
    SampleStalls(trace[..4], replies[..3]);
    StallsForever(cps, SampleChain(), trace[3..], Foreigners(n), replies[3..], 2, 3, n);
  }

  // -------------------------------------------------------------------------
  // Runs in which every request is for a block of the chain.

  ghost predicate OwnBlock(chain: seq<Block>, b: Block) {
    && b.height < |chain| && b.hash == chain[b.height].hash && b.prevHash == chain[b.height].prevHash
    && NoCollision(chain, b)
  }

  /** A request for the chain's own block of some height, with no reset. */
  ghost predicate OwnEvent(chain: seq<Block>, e: Event) {
    && e.reset.None? && e.request.valid && e.request.coinbaseHeight.Some?
    && OwnBlock(chain, Block(e.request.coinbaseHeight.value, e.request.hash, e.request.prevHash, e.request.body))
  }

  /** Only blocks of the chain wait. */
  ghost predicate OwnQueue(chain: seq<Block>, q: Queue) {
    forall h :: h in q ==> |q[h]| == 1 && q[h][0].block.height == h && OwnBlock(chain, q[h][0].block)
  }

  /** Everything that the queue covers has been verified. */
  ghost predicate Settled(cps: Checkpoints, chain: seq<Block>, s: State) {
    && ValidProgress(cps, s.progress, s.tipHash) && OneChain(cps, chain) && OwnQueue(chain, s.queue)
    && (s.progress.InitialTip? ==> s.progress.height < |chain| && s.tipHash == Some(chain[s.progress.height].hash))
    && (s.progress.FinalCheckpoint? || IsTarget(cps, s.queue, Low(cps, s.progress), WaitingForBlocks))
  }

  /** A block that is queued or verified already. */
  ghost predicate Arrived(cps: Checkpoints, s: State, h: nat)
    requires ValidCheckpoints(cps)
  {
    h in s.queue || h <= Low(cps, s.progress)
  }

  /** Blocks of the chain are only refused once they have been verified. */
  lemma {:induction false} OwnAdmit(cps: Checkpoints, chain: seq<Block>, s: State, e: Event)
    requires Settled(cps, chain, s) && OwnEvent(chain, e) && !s.progress.FinalCheckpoint?
    ensures var h, admitted := e.request.coinbaseHeight.value, Admit(cps, s.progress, s.queue, e.request);
            && (admitted.Err? ==> admitted.error.AlreadyVerified? && h <= Low(cps, s.progress))
            && (admitted.Ok? ==> OwnBlock(chain, admitted.value) && admitted.value.height == h)
  {
    hide NoCollision, IsTarget;
    var list := EntryOrDefault(s.queue, e.request.coinbaseHeight.value);
    assert |list| <= 1;
  }

  lemma {:induction false} OwnEnqueue(chain: seq<Block>, s: State, block: Block)
    requires OwnQueue(chain, s.queue) && OwnBlock(chain, block)
    ensures OwnQueue(chain, Enqueued(s, block).queue)
    ensures block.height in Enqueued(s, block).queue
  {
    var b, list := QueuedBlock(block, s.nextTx), EntryOrDefault(s.queue, block.height);
    assert list == [] || (|list| == 1 && list[0].block.hash == block.hash);
    assert Put(list, b) == [b];
  }

  lemma {:induction false} OwnQueueOnChain(cps: Checkpoints, chain: seq<Block>, q: Queue, low: int, high: nat)
    requires -1 <= low <= high < |chain| && OwnQueue(chain, q) && Covered(q, low, high)
    ensures NoCollisions(chain, q) && OwnUpTo(chain, q, low, high)
  {
    hide NoCollision;
    forall h | low < h <= high ensures OwnQueued(chain, q, h) {
      assert q[h][0] in q[h];
    }
  }

  /** A round over blocks of the chain verifies everything that is covered. */
  lemma {:induction false} OwnRound(cps: Checkpoints, chain: seq<Block>, s: State, s': State)
    requires Round(cps, s, s') && OneChain(cps, chain) && OwnQueue(chain, s.queue) && !s.progress.FinalCheckpoint?
    requires s.progress.InitialTip? ==> s.progress.height < |chain| && s.tipHash == Some(chain[s.progress.height].hash)
    ensures Settled(cps, chain, s') && Low(cps, s.progress) <= Low(cps, s'.progress)
    ensures forall h :: h in s.queue ==> Arrived(cps, s', h)
  {
    hide NoCollision, OwnBlock, Descend;
    var low := Low(cps, s.progress);
    var t := TargetOf(cps, s.queue, low);
    if t.Checkpoint? {
      TargetFacts(cps, s.queue, low, t.height);
      OwnQueueOnChain(cps, chain, s.queue, low, t.height);
      assert chain[t.height].height == t.height;
      DescendFinds(s.queue, cps, chain, t.height, low, cps[t.height], []);
      SuccessCoversAll(cps, s.queue, low, t.height);
    } else {
      NothingCovered(cps, s.queue, low);
    }
  }

  lemma {:induction false} NothingCovered(cps: Checkpoints, q: Queue, low: int)
    requires TargetOf(cps, q, low) == WaitingForBlocks
    ensures IsTarget(cps, q, low, WaitingForBlocks)
  {
    forall c | c in cps && c > low ensures !Covered(q, low, c) {
      if Covered(q, low, c) {
        CoveredTarget(cps, q, low, c);
      }
    }
  }

  lemma {:induction false} OwnCall(cps: Checkpoints, chain: seq<Block>, s: State, e: Event, s': State, r: Reply<nat>)
    requires Settled(cps, chain, s) && OwnEvent(chain, e) && Called(cps, s, e, s', r)
    ensures Settled(cps, chain, s') && Low(cps, s.progress) <= Low(cps, s'.progress)
    ensures forall h :: Arrived(cps, s, h) ==> Arrived(cps, s', h)
    ensures Arrived(cps, s', e.request.coinbaseHeight.value)
    ensures r.Ok? || r.error.AlreadyVerified? || r.error.Finished?
  {
    var h := e.request.coinbaseHeight.value;
    if s.progress.FinalCheckpoint? {
    } else {
      OwnAdmit(cps, chain, s, e);
      var admitted := Admit(cps, s.progress, s.queue, e.request);
      if admitted.Ok? {
        OwnEnqueue(chain, s, admitted.value);
        OwnRound(cps, chain, Enqueued(s, admitted.value), s');
        hide Round, Settled, OwnEvent, Put, Match, Admit;
      }
    }
  }

  lemma {:induction false} RunSettled(cps: Checkpoints, chain: seq<Block>, trace: seq<State>, events: seq<Event>,
                                      replies: seq<Reply<nat>>, n: nat)
    requires ValidCheckpoints(cps) && Ran(cps, trace, events, replies) && n <= |events|
    requires Settled(cps, chain, trace[0]) && forall i :: 0 <= i < |events| ==> OwnEvent(chain, events[i])
    ensures Settled(cps, chain, trace[n]) && Low(cps, trace[0].progress) <= Low(cps, trace[n].progress)
    ensures forall i :: 0 <= i < n ==>
              events[i].request.coinbaseHeight.Some? && Arrived(cps, trace[n], events[i].request.coinbaseHeight.value)
  {
    hide Called, Settled, Arrived;
    if n == 0 {
    } else {
      RunSettled(cps, chain, trace, events, replies, n - 1);
      OwnCall(cps, chain, trace[n - 1], events[n - 1], trace[n], replies[n - 1]);
      forall i | 0 <= i < n
        ensures events[i].request.coinbaseHeight.Some?
        ensures Arrived(cps, trace[n], events[i].request.coinbaseHeight.value)
      {
        assert OwnEvent(chain, events[i]);
        if i < n - 1 {
          assert Arrived(cps, trace[n - 1], events[i].request.coinbaseHeight.value);
        }
      }
    }
  }

  ghost predicate Delivered(events: seq<Event>, h: nat) {
    exists i :: 0 <= i < |events| && events[i].request.coinbaseHeight == Some(h)
  }

  /** Over every run of requests for blocks of the chain, in whatever order and however often: once the blocks of all
    * heights up to a checkpoint have been delivered, everything up to that checkpoint has been verified. */
  lemma {:induction false} RunReaches(cps: Checkpoints, chain: seq<Block>, trace: seq<State>, events: seq<Event>,
                                      replies: seq<Reply<nat>>, c: nat)
    requires ValidCheckpoints(cps) && Ran(cps, trace, events, replies) && Settled(cps, chain, trace[0])
    requires forall i :: 0 <= i < |events| ==> OwnEvent(chain, events[i])
    requires c in cps && forall h :: Low(cps, trace[0].progress) < h <= c ==> Delivered(events, h)
    ensures c <= Low(cps, trace[|events|].progress)
  {
    RunSettled(cps, chain, trace, events, replies, |events|);
    var s := trace[|events|];
    var low := Low(cps, s.progress);
    if low < c {
      forall h | low < h <= c ensures h in s.queue {
        assert Delivered(events, h);
        var i :| 0 <= i < |events| && events[i].request.coinbaseHeight == Some(h);
        assert OwnEvent(chain, events[i]);
        assert Arrived(cps, s, h);
      }
      assert Covered(s.queue, low, c);
    }
  }

  /** A block of the chain is refused for lack of room exactly if its height is still to be verified and four other
    * blocks wait there. */
  lemma {:induction false} OwnRefused(cps: Checkpoints, chain: seq<Block>, p: Progress, q: Queue, e: Event)
    requires ValidCheckpoints(cps) && OneChain(cps, chain) && ValidQueue(cps, q) && OwnEvent(chain, e)
    ensures var h := e.request.coinbaseHeight.value;
            Admit(cps, p, q, e.request) == Err(QueuedLimit) <==>
            Low(cps, p) < h && h in q && |q[h]| == MAX_QUEUED_BLOCKS_PER_HEIGHT && !OwnQueued(chain, q, h)
  {
    hide NoCollision, DistinctHashes;
    var h := e.request.coinbaseHeight.value;
    assert h in q ==> ValidList(q[h], h);
  }
}
