/** What the checkpoint verifier does with one request, as relations between values: which requests it takes, and what
  * a round of range processing does with the queue. */
module CheckpointRanges {
  import opened CheckpointTypes
  import opened Options

  // -------------------------------------------------------------------------
  // What one round of range processing does, as relations between values.

  /** The parent hash that a complete range must end at. */
  ghost function PreviousHash(cps: Checkpoints, p: Progress, tipHash: Option<Hash>): Hash
    requires p.InitialTip? ==> tipHash.Some?
    requires p.PreviousCheckpoint? ==> p.height in cps
    requires !p.FinalCheckpoint?
  {
    match p
    case BeforeGenesis => GENESIS_PREVIOUS_BLOCK_HASH
    case InitialTip(_) => tipHash.value
    case PreviousCheckpoint(h) => cps[h]
  }

  /** Progress is at a checkpoint below the last one, or at a tip with a known hash below it. */
  ghost predicate ValidProgress(cps: Checkpoints, p: Progress, tipHash: Option<Hash>) {
    && ValidCheckpoints(cps)
    && (p.InitialTip? ==> tipHash.Some? && p.height < MaxHeight(cps))
    && (p.PreviousCheckpoint? ==> p.height in cps && p.height < MaxHeight(cps))
  }

  ghost function TargetOf(cps: Checkpoints, q: Queue, low: int): (t: Target)
    ensures t.Checkpoint? ==> IsTarget(cps, q, low, t)
    ensures !t.Checkpoint? ==> t == WaitingForBlocks && forall h :: !IsTarget(cps, q, low, Checkpoint(h))
  {
    if h: nat :| IsTarget(cps, q, low, Checkpoint(h)) then Checkpoint(h) else WaitingForBlocks
  }

  /** The walk from the target checkpoint back to the verified height. */
  ghost function RangeWalk(cps: Checkpoints, q: Queue, low: int, target: nat): Walk
    requires -1 <= low && IsTarget(cps, q, low, Checkpoint(target))
  {
    Descend(q, cps, target, low, cps[target], [])
  }

  /** Range processing stops the program exactly if a checkpoint contradicts the chain it walks. */
  ghost predicate RangePanics(cps: Checkpoints, q: Queue, p: Progress, tipHash: Option<Hash>)
    requires ValidProgress(cps, p, tipHash)
  {
    var low := Low(cps, p);
    var t := TargetOf(cps, q, low);
    !p.FinalCheckpoint? && t.Checkpoint? &&
    var w := RangeWalk(cps, q, low, t.height);
    w.Mismatch? || (w.Linked? && w.parent != PreviousHash(cps, p, tipHash))
  }

  /** If the checkpoints and the tip lie on one chain and no queued block collides with it,
    * no assertion of range processing can fail. */
  lemma {:induction false} NoPanicOnOneChain(cps: Checkpoints, q: Queue, p: Progress, tipHash: Option<Hash>,
                                             chain: seq<Block>)
    requires ValidProgress(cps, p, tipHash)
    requires OneChain(cps, chain) && NoCollisions(chain, q)
    requires p.InitialTip? ==> tipHash == Some(chain[p.height].hash)
    ensures !RangePanics(cps, q, p, tipHash)
  {
    var low := Low(cps, p);
    var t := TargetOf(cps, q, low);
    if !p.FinalCheckpoint? && t.Checkpoint? {
      assert chain[t.height].height == t.height;
      DescendOnChain(q, cps, chain, t.height, low, cps[t.height], []);
      if p.PreviousCheckpoint? {
        assert chain[p.height].height == p.height;
      }
    }
  }

  /** The queue without the heights of a processed range. */
  ghost function Without(q: Queue, low: int, high: int): (r: Queue)
  {
    map h | h in q && !(low < h <= high) :: q[h]
  }

  /** The queue with each height of a partly walked range reduced to the one block held for it. */
  ghost function Narrow(q: Queue, h: int, top: int, held: seq<QueuedBlock>): (r: Queue)
    requires |held| == top - h
  {
    map k | k in q :: if h < k <= top then [held[top - k]] else q[k]
  }

  /** Progress after verifying the range up to a checkpoint. */
  ghost function Advanced(cps: Checkpoints, target: nat): Progress
    requires ValidCheckpoints(cps)
  {
    if target == MaxHeight(cps) then FinalCheckpoint else PreviousCheckpoint(target)
  }

  /** After a complete range the run of queued heights reaches no further checkpoint. */
  lemma {:induction false} SuccessCoversAll(cps: Checkpoints, q: Queue, low: int, target: nat)
    requires IsTarget(cps, q, low, Checkpoint(target))
    ensures IsTarget(cps, Without(q, low, target), target, WaitingForBlocks)
  {
    var q' := Without(q, low, target);
    forall c | c in cps && c > target
      ensures !Covered(q', target, c)
    {
      if Covered(q', target, c) {
        forall h | low < h <= c ensures h in q {
          if h > target { assert h in q'; }
        }
        assert Covered(q, low, c);
      }
    }
  }

  /** Losing all blocks at one height of the range lowers or removes the target. */
  lemma {:induction false} FailureLowersTarget(cps: Checkpoints, q: Queue, low: int, target: nat, failed: nat,
                                               t: Target)
    requires low < failed <= target && failed !in q && IsTarget(cps, q, low, t)
    ensures t == WaitingForBlocks || (t.Checkpoint? && t.height < failed <= target)
  {
  }

  lemma {:induction false} TargetUniqueOf(cps: Checkpoints, q: Queue, low: int, t: Target)
    requires IsTarget(cps, q, low, t)
    ensures TargetOf(cps, q, low) == t
  {
    var u := TargetOf(cps, q, low);
    if u.Checkpoint? {
      TargetUnique(cps, q, low, t, u);
    }
  }

  /** The outcome of range processing: nothing to do, a verified range, or a failed one. */
  ghost predicate Processed(cps: Checkpoints, q: Queue, p: Progress, tipHash: Option<Hash>, log: seq<QueuedBlock>,
                            q': Queue, p': Progress, tipHash': Option<Hash>, log': seq<QueuedBlock>)
    requires ValidProgress(cps, p, tipHash)
  {
    var low := Low(cps, p);
    var t := TargetOf(cps, q, low);
    if p.FinalCheckpoint? || !t.Checkpoint? then q' == q && p' == p && tipHash' == tipHash && log' == log
    else match RangeWalk(cps, q, low, t.height)
      case Linked(held, _) =>
        && q' == Without(q, low, t.height)
        && p' == Advanced(cps, t.height) && tipHash' == (if p'.FinalCheckpoint? then tipHash else None)
        && log' == log + Reversed(held)
      case Broken(failed, held) =>
        && |held| == t.height - failed
        && q' == Narrow(q, failed, t.height, held) - {failed}
        && p' == p && tipHash' == tipHash && log' == log
      case Mismatch(_) => false
  }

  lemma {:induction false} TargetFacts(cps: Checkpoints, q: Queue, low: int, target: nat)
    requires IsTarget(cps, q, low, Checkpoint(target))
    ensures target in cps && low < target && Covered(q, low, target)
  {
  }

  /** The queue that a range broken at `failed` leaves: the failing height is empty, each range height above it
    * keeps exactly one block, hash-linked down from the target, and no other height is touched. No block at the
    * failing height had the hash that the chain expects there. */
  ghost predicate Narrowed(cps: Checkpoints, q: Queue, failed: nat, target: nat, q': Queue) {
    && failed in q && failed !in q' && target in cps
    && (forall h :: h in q && !(failed <= h <= target) ==> h in q' && q'[h] == q[h])
    && (forall h :: h in q' ==> h in q)
    && (forall h :: failed < h <= target ==> h in q' && |q'[h]| == 1 && q'[h][0] in q[h])
    && (failed < target ==> q'[target][0].block.hash == cps[target])
    && (forall h, g :: failed < h < target && g == h + 1 ==> q'[h][0].block.hash == q'[g][0].block.prevHash)
    && Match(q[failed], if failed < target then q'[failed + 1][0].block.prevHash else cps[target]) == None
  }

  /** A failed range leaves progress alone and narrows the queue. */
  lemma {:induction false} FailedRange(cps: Checkpoints, q: Queue, p: Progress, tipHash: Option<Hash>,
                                       log: seq<QueuedBlock>, q': Queue, p': Progress, tipHash': Option<Hash>,
                                       log': seq<QueuedBlock>, target: nat)
    requires ValidProgress(cps, p, tipHash) && !p.FinalCheckpoint? && ValidQueue(cps, q)
    requires Processed(cps, q, p, tipHash, log, q', p', tipHash', log')
    requires TargetOf(cps, q, Low(cps, p)) == Checkpoint(target)
    requires RangeWalk(cps, q, Low(cps, p), target).Broken?
    ensures var failed := RangeWalk(cps, q, Low(cps, p), target).height;
            && p' == p && tipHash' == tipHash && log' == log
            && Low(cps, p) < failed <= target && Narrowed(cps, q, failed, target, q')
  {
    BrokenProcessed(cps, q, p, tipHash, log, q', p', tipHash', log', target);
    hide Processed, Descend, ValidList, Match, IsTarget, Held, DistinctHashes, Covered, Narrow, Narrowed;
    var low := Low(cps, p);
    var w := RangeWalk(cps, q, low, target);
    TargetFacts(cps, q, low, target);
    HeldNothing(q, cps, target, cps[target]);
    DescendHeld(q, cps, target, target, low, cps[target], cps[target], []);
    CoveredAt(q, low, target, w.height);
    var e :| Held(q, cps, target, w.height, cps[target], e, w.held) && Match(q[w.height], e) == None;
    NarrowedQueue(cps, q, w.height, target, e, w.held);
  }

  lemma {:induction false} CoveredAt(q: Queue, low: int, high: int, h: int)
    requires Covered(q, low, high) && low < h <= high
    ensures h in q
  {
  }

  lemma {:induction false} BrokenProcessed(cps: Checkpoints, q: Queue, p: Progress, tipHash: Option<Hash>,
                                           log: seq<QueuedBlock>, q': Queue, p': Progress, tipHash': Option<Hash>,
                                           log': seq<QueuedBlock>, target: nat)
    requires ValidProgress(cps, p, tipHash) && !p.FinalCheckpoint?
    requires Processed(cps, q, p, tipHash, log, q', p', tipHash', log')
    requires TargetOf(cps, q, Low(cps, p)) == Checkpoint(target)
    requires RangeWalk(cps, q, Low(cps, p), target).Broken?
    ensures var w := RangeWalk(cps, q, Low(cps, p), target);
            && |w.held| == target - w.height && q' == Narrow(q, w.height, target, w.held) - {w.height}
            && p' == p && tipHash' == tipHash && log' == log
  {
    hide IsTarget, Descend, Narrow, Without;
  }

  /** A failed range strictly lowers the target or removes it. */
  lemma {:induction false} FailedRangeTarget(cps: Checkpoints, q: Queue, p: Progress, tipHash: Option<Hash>,
                                             log: seq<QueuedBlock>, q': Queue, p': Progress, tipHash': Option<Hash>,
                                             log': seq<QueuedBlock>, target: nat)
    requires ValidProgress(cps, p, tipHash) && !p.FinalCheckpoint? && ValidQueue(cps, q)
    requires Processed(cps, q, p, tipHash, log, q', p', tipHash', log')
    requires TargetOf(cps, q, Low(cps, p)) == Checkpoint(target)
    requires RangeWalk(cps, q, Low(cps, p), target).Broken?
    ensures var t := TargetOf(cps, q', Low(cps, p'));
            t == WaitingForBlocks || (t.Checkpoint? && t.height < target)
  {
    var low := Low(cps, p);
    var w := RangeWalk(cps, q, low, target);
    FailedRange(cps, q, p, tipHash, log, q', p', tipHash', log', target);
    hide Processed, RangeWalk, IsTarget;
    var t := TargetOf(cps, q', low);
    if t.Checkpoint? {
      FailureLowersTarget(cps, q', low, target, w.height, t);
    }
  }

  lemma {:induction false} HeldNothing(q: Queue, cps: Checkpoints, top: int, first: Hash)
    ensures Held(q, cps, top, top, first, first, [])
  {
  }

  /** `v` has exactly the held block at each height of a range. */
  ghost predicate HoldsAt(v: Queue, failed: nat, target: nat, held: seq<QueuedBlock>) {
    |held| == target - failed && forall h :: failed < h <= target ==> h in v && v[h] == [held[target - h]]
  }

  lemma {:induction false} NarrowAt(cps: Checkpoints, q: Queue, failed: nat, target: nat, e: Hash,
                                    held: seq<QueuedBlock>)
    requires failed <= target && target in cps && Held(q, cps, target, failed, cps[target], e, held)
    ensures |held| == target - failed
    ensures var v := Narrow(q, failed, target, held) - {failed};
            && (forall h :: h in v <==> h in q && h != failed)
            && (forall h :: h in v && !(failed < h <= target) ==> v[h] == q[h])
            && HoldsAt(v, failed, target, held)
            && (forall h :: failed < h <= target ==> v[h][0] in q[h])
  {
    forall h | failed < h <= target ensures h in q && held[target - h] in q[h] {
      assert HeldAt(q, cps, target - (target - h), held[target - h]);
    }
  }

  lemma {:induction false} HoldsLinked(cps: Checkpoints, q: Queue, failed: nat, target: nat, e: Hash,
                                       held: seq<QueuedBlock>, v: Queue)
    requires failed <= target && target in cps && Held(q, cps, target, failed, cps[target], e, held)
    requires HoldsAt(v, failed, target, held)
    ensures failed < target ==> v[target][0].block.hash == cps[target]
    ensures forall h, g :: failed < h < target && g == h + 1 ==> v[h][0].block.hash == v[g][0].block.prevHash
    ensures e == if failed < target then v[failed + 1][0].block.prevHash else cps[target]
  {
    forall h, g | failed < h < target && g == h + 1
      ensures v[h][0].block.hash == v[g][0].block.prevHash
    {
      var k, l := target - g, target - h;
      assert held[l].block.hash == held[k].block.prevHash;
    }
  }

  /** Putting the blocks that a broken walk holds back narrows the queue. */
  lemma {:induction false} NarrowedQueue(cps: Checkpoints, q: Queue, failed: nat, target: nat, e: Hash,
                                         held: seq<QueuedBlock>)
    requires failed <= target && target in cps && failed in q
    requires Held(q, cps, target, failed, cps[target], e, held) && Match(q[failed], e) == None
    ensures |held| == target - failed && Narrowed(cps, q, failed, target, Narrow(q, failed, target, held) - {failed})
  {
    NarrowAt(cps, q, failed, target, e, held);
    HoldsLinked(cps, q, failed, target, e, held, Narrow(q, failed, target, held) - {failed});
    hide Match, Held, Narrow;
  }

  /** Range processing keeps only blocks that were queued. */
  lemma {:induction false} ProcessedShrinks(cps: Checkpoints, q: Queue, p: Progress, tipHash: Option<Hash>,
                                            log: seq<QueuedBlock>, q': Queue, p': Progress, tipHash': Option<Hash>,
                                            log': seq<QueuedBlock>)
    requires ValidProgress(cps, p, tipHash) && ValidQueue(cps, q)
    requires Processed(cps, q, p, tipHash, log, q', p', tipHash', log')
    ensures forall h, b :: h in q' && b in q'[h] ==> h in q && b in q[h]
    ensures p'.InitialTip? ==> p' == p && tipHash' == tipHash
  {
    var low := Low(cps, p);
    var t := TargetOf(cps, q, low);
    if !p.FinalCheckpoint? && t.Checkpoint? {
      var w := RangeWalk(cps, q, low, t.height);
      if w.Broken? {
        FailedRange(cps, q, p, tipHash, log, q', p', tipHash', log', t.height);
        forall h, b | h in q' && b in q'[h]
          ensures h in q && b in q[h]
        {
          if w.height < h <= t.height { assert b == q'[h][0]; }
        }
      }
    }
  }

  // -------------------------------------------------------------------------
  // One chain behind a whole run.

  /** Checkpoints, queued blocks and tip all lie on one collision-free chain. */
  ghost predicate OnChain(cps: Checkpoints, chain: seq<Block>, q: Queue, p: Progress, tipHash: Option<Hash>)
    requires ValidCheckpoints(cps)
  {
    && OneChain(cps, chain) && NoCollisions(chain, q)
    && (p.InitialTip? ==> p.height < |chain| && tipHash == Some(chain[p.height].hash))
  }

  /** A tip that lies on the chain, as far as the chain goes. */
  ghost predicate TipOnChain(chain: seq<Block>, tip: Option<(nat, Hash)>) {
    tip.Some? && tip.value.0 < |chain| ==> tip.value.1 == chain[tip.value.0].hash
  }

  /** A block handed to the verifier. `valid` is the outcome of the proof-of-work, subsidy and
    * Merkle root checks. */
  datatype Request = Request(coinbaseHeight: Option<nat>, hash: Hash, prevHash: Hash, body: nat, valid: bool)

  /** One call: the tip to reset to first, if any, and the request. */
  datatype Event = Event(reset: Option<Option<(nat, Hash)>>, request: Request)

  ghost predicate GoodEvent(chain: seq<Block>, e: Event) {
    && (e.reset.Some? ==> TipOnChain(chain, e.reset.value))
    && (e.request.coinbaseHeight.Some? ==>
          NoCollision(chain, Block(e.request.coinbaseHeight.value, e.request.hash, e.request.prevHash, e.request.body)))
  }

  lemma {:induction false} OnChainKept(cps: Checkpoints, chain: seq<Block>, q: Queue, p: Progress,
                                       tipHash: Option<Hash>, log: seq<QueuedBlock>, q': Queue, p': Progress,
                                       tipHash': Option<Hash>, log': seq<QueuedBlock>)
    requires ValidProgress(cps, p, tipHash) && ValidQueue(cps, q)
    requires OnChain(cps, chain, q, p, tipHash)
    requires Processed(cps, q, p, tipHash, log, q', p', tipHash', log')
    ensures OnChain(cps, chain, q', p', tipHash')
  {
    ProcessedShrinks(cps, q, p, tipHash, log, q', p', tipHash', log');
    hide Processed, NoCollision;
  }

  lemma {:induction false} TipKeepsOnChain(cps: Checkpoints, chain: seq<Block>, q: Queue, tip: Option<(nat, Hash)>)
    requires ValidCheckpoints(cps) && OneChain(cps, chain) && NoCollisions(chain, q) && TipOnChain(chain, tip)
    ensures OnChain(cps, chain, q, ProgressFromTip(cps, tip).1, ProgressFromTip(cps, tip).0)
  {
    hide NoCollisions;
  }

  function EntryOrDefault(q: Queue, h: nat): seq<QueuedBlock> {
    if h in q then q[h] else []
  }

  /** Which requests are queued, and the error for the others: exactly the valid blocks at a height still to be
    * verified, unless four other blocks wait at that height. */
  function Admit(cps: Checkpoints, p: Progress, q: Queue, req: Request): (r: Reply<Block>)
    requires ValidCheckpoints(cps)
    ensures r.Ok? ==>
              req.coinbaseHeight.Some? && r.value == Block(req.coinbaseHeight.value, req.hash, req.prevHash, req.body)
    ensures req.coinbaseHeight.None? ==> r == Err(CoinbaseHeight)
    ensures req.coinbaseHeight.Some? && r.Err? && r != Err(QueuedLimit) ==>
              var checked := CheckHeight(cps, p, req.coinbaseHeight.value);
              r.error == if checked.Err? then checked.error else InvalidBlock
    ensures r.Ok? || r == Err(QueuedLimit) <==>
            req.coinbaseHeight.Some? && req.valid && Low(cps, p) < req.coinbaseHeight.value <= MaxHeight(cps)
    ensures r == Err(QueuedLimit) ==>
              var list := EntryOrDefault(q, req.coinbaseHeight.value);
              |list| >= MAX_QUEUED_BLOCKS_PER_HEIGHT && forall b :: b in list ==> b.block.hash != req.hash
    ensures r.Ok? ==>
              var list := EntryOrDefault(q, req.coinbaseHeight.value);
              |list| < MAX_QUEUED_BLOCKS_PER_HEIGHT || exists b :: b in list && b.block.hash == req.hash
  {
    if req.coinbaseHeight.None? then Err(CoinbaseHeight)
    else
      var height := req.coinbaseHeight.value;
      var list := EntryOrDefault(q, height);
      var checked := CheckHeight(cps, p, height);
      if checked.Err? then Err(checked.error)
      else if !req.valid then Err(InvalidBlock)
      else if Match(list, req.hash).None? && |list| >= MAX_QUEUED_BLOCKS_PER_HEIGHT then Err(QueuedLimit)
      else Ok(Block(height, req.hash, req.prevHash, req.body))
  }

  lemma {:induction false} PutReplaces(list: seq<QueuedBlock>, i: nat, b: QueuedBlock)
    requires i < |list| && list[i].block.hash == b.block.hash
    requires forall j :: 0 <= j < i ==> list[j].block.hash != b.block.hash
    ensures Put(list, b) == list[i := b] && Match(list, b.block.hash) == Some(list[i])
  {
    if i == 0 {
    } else {
      PutReplaces(list[1..], i - 1, b);
    }
  }

  lemma {:induction false} PutAppends(list: seq<QueuedBlock>, b: QueuedBlock)
    requires forall j :: 0 <= j < |list| ==> list[j].block.hash != b.block.hash
    ensures Put(list, b) == list + [b] && Match(list, b.block.hash) == None
  {
    if list == [] {
    } else {
      PutAppends(list[1..], b);
    }
  }

  /** A list stays short, free of duplicates and at one height when a block is put into it. */
  lemma {:induction false} PutValid(list: seq<QueuedBlock>, b: QueuedBlock)
    requires list == [] || ValidList(list, b.block.height)
    requires Match(list, b.block.hash).None? ==> |list| < MAX_QUEUED_BLOCKS_PER_HEIGHT
    ensures ValidList(Put(list, b), b.block.height)
    ensures forall c :: c in Put(list, b) <==> c == b || (c in list && Match(list, b.block.hash) != Some(c))
  {
    var hash := b.block.hash;
    if i :| 0 <= i < |list| && list[i].block.hash == hash {
      PutReplaces(list, i, b);
      var r := list[i := b];
      forall c | c in list && c != list[i] ensures c in r {
        var j :| 0 <= j < |list| && list[j] == c;
        assert r[j] == c;
      }
      assert r[i] == b;
    } else {
      PutAppends(list, b);
    }
  }

  /** Putting a block that does not collide into the queue. */
  lemma {:induction false} PutNoCollision(chain: seq<Block>, q: Queue, b: QueuedBlock, q': Queue)
    requires NoCollisions(chain, q) && NoCollision(chain, b.block)
    requires q' == q[b.block.height := Put(EntryOrDefault(q, b.block.height), b)]
    ensures NoCollisions(chain, q')
  {
    PutElements(EntryOrDefault(q, b.block.height), b);
    hide Put, NoCollision;
  }

  lemma {:induction false} PutElements(list: seq<QueuedBlock>, b: QueuedBlock)
    ensures forall c :: c in Put(list, b) ==> c == b || c in list
  {
    if list == [] || list[0].block.hash == b.block.hash {
    } else {
      PutElements(list[1..], b);
    }
  }

  // -------------------------------------------------------------------------
  // One call and a run of calls.

  /** What a verifier holds and has done: the requests accepted, the answers sent, and the requests answered with
    * success in sending order. */
  datatype State = State(tipHash: Option<Hash>, progress: Progress, queue: Queue, nextTx: nat,
                         accepted: map<nat, QueuedBlock>, answered: map<nat, Reply<Hash>>, okLog: seq<QueuedBlock>)

  /** A new verifier at the tip of the state. */
  ghost function Start(cps: Checkpoints, tip: Option<(nat, Hash)>): State
    requires ValidCheckpoints(cps)
  {
    State(ProgressFromTip(cps, tip).0, ProgressFromTip(cps, tip).1, map[], 0, map[], map[], [])
  }

  ghost function Reset(cps: Checkpoints, s: State, e: Event): State
    requires ValidCheckpoints(cps)
  {
    if e.reset.None? then s
    else
      var (tipHash, progress) := ProgressFromTip(cps, e.reset.value);
      s.(tipHash := tipHash, progress := progress)
  }

  /** A newer request replaces an older one for the same block, which is answered with an error. */
  ghost function Enqueued(s: State, block: Block): State {
    var b, list := QueuedBlock(block, s.nextTx), EntryOrDefault(s.queue, block.height);
    s.(queue := s.queue[block.height := Put(list, b)], nextTx := s.nextTx + 1, accepted := s.accepted[b.tx := b],
       answered := match Match(list, block.hash)
                   case None => s.answered
                   case Some(older) => s.answered[older.tx := Err(NewerRequest(block.height, block.hash))])
  }

  /** Answers already sent stay. */
  ghost predicate Stay(before: map<nat, Reply<Hash>>, after: map<nat, Reply<Hash>>) {
    forall tx :: tx in before ==> tx in after && after[tx] == before[tx]
  }

  /** A round answers requests with the hash of their block, or with the other hash expected in its place. */
  ghost predicate RoundAnswers(accepted: map<nat, QueuedBlock>, before: map<nat, Reply<Hash>>,
                               after: map<nat, Reply<Hash>>) {
    && Stay(before, after)
    && forall tx :: tx in after && tx !in before ==> tx in accepted && RoundAnswer(accepted[tx], after[tx])
  }

  ghost predicate RoundAnswer(b: QueuedBlock, r: Reply<Hash>) {
    match r
    case Ok(hash) => hash == b.block.hash
    case Err(e) => e.UnexpectedSideChain? && e.found == b.block.hash && e.expected != e.found
  }

  /** What happens to the state after a request has been queued. */
  ghost predicate Round(cps: Checkpoints, s: State, s': State) {
    && ValidProgress(cps, s.progress, s.tipHash)
    && Processed(cps, s.queue, s.progress, s.tipHash, s.okLog, s'.queue, s'.progress, s'.tipHash, s'.okLog)
    && s'.nextTx == s.nextTx && s'.accepted == s.accepted && RoundAnswers(s.accepted, s.answered, s'.answered)
  }

  /** One call that returns `r`. */
  ghost predicate Called(cps: Checkpoints, s: State, e: Event, s': State, r: Reply<nat>)
    requires ValidCheckpoints(cps)
  {
    var s0 := Reset(cps, s, e);
    if s0.progress.FinalCheckpoint? then r == Err(Finished) && s' == s0
    else match Admit(cps, s0.progress, s0.queue, e.request)
      case Err(error) => r == Err(error) && s' == s0
      case Ok(block) => r == Ok(s0.nextTx) && Round(cps, Enqueued(s0, block), s')
  }

  /** The calls that stop the program: those that queue a block and then find a contradiction. */
  ghost predicate CallPanics(cps: Checkpoints, s: State, e: Event)
    requires ValidCheckpoints(cps)
  {
    var s0 := Reset(cps, s, e);
    var admitted := Admit(cps, s0.progress, s0.queue, e.request);
    && !s0.progress.FinalCheckpoint? && admitted.Ok? && ValidProgress(cps, s0.progress, s0.tipHash)
    && RangePanics(cps, Enqueued(s0, admitted.value).queue, s0.progress, s0.tipHash)
  }

  /** The states before, between and after the calls of a run, and the replies. */
  ghost predicate Ran(cps: Checkpoints, trace: seq<State>, events: seq<Event>, replies: seq<Reply<nat>>)
    requires ValidCheckpoints(cps)
  {
    && |trace| == |events| + 1 && |replies| == |events|
    && forall i, j :: 0 <= i < |events| && j == i + 1 ==> Called(cps, trace[i], events[i], trace[j], replies[i])
  }
}
