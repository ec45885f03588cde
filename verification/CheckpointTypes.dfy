/** The values the checkpoint verifier works on, and its specification as functions and relations. */
module CheckpointTypes {
  import opened Integers
  import opened Options

  type Hash = nat

  /** The null hash is the parent hash of genesis blocks. */
  const GENESIS_PREVIOUS_BLOCK_HASH: Hash := 0

  const MAX_QUEUED_BLOCKS_PER_HEIGHT: nat := 4

  datatype Block = Block(height: nat, hash: Hash, prevHash: Hash, body: nat)

  /** A block in the queue, with the identity of the request that waits for its result. */
  datatype QueuedBlock = QueuedBlock(block: Block, tx: nat)

  datatype Error =
    | Finished
    | TooHigh(height: nat, maxHeight: nat)
    | AlreadyVerified(height: nat, verifiedHeight: nat)
    | NewerRequest(height: nat, hash: Hash)
    | CoinbaseHeight
    | InvalidBlock
    | QueuedLimit
    | UnexpectedSideChain(expected: Hash, found: Hash)
    | Dropped

  /** The reply to a request. */
  type Reply<+T> = Result<T, Error>

  datatype Progress = BeforeGenesis | InitialTip(height: nat) | PreviousCheckpoint(height: nat) | FinalCheckpoint

  datatype Target = WaitingForBlocks | Checkpoint(height: nat) | FinishedVerifying

  type Checkpoints = map<nat, Hash>

  type Queue = map<nat, seq<QueuedBlock>>

  /** There is at least a genesis checkpoint. */
  predicate ValidCheckpoints(cps: Checkpoints) {
    0 in cps
  }

  function MaxHeight(cps: Checkpoints): (m: nat)
    requires ValidCheckpoints(cps)
    ensures m in cps && forall h :: h in cps ==> h <= m
  {
    GreatestExists(cps.Keys);
    var m :| m in cps && forall h :: h in cps ==> h <= m;
    m
  }

  /** The height of everything already verified; below every height before genesis. */
  function Low(cps: Checkpoints, p: Progress): int
    requires ValidCheckpoints(cps)
  {
    match p
    case BeforeGenesis => -1
    case InitialTip(h) => h
    case PreviousCheckpoint(h) => h
    case FinalCheckpoint => MaxHeight(cps)
  }

  /** Progress in chain order. */
  predicate Less(p: Progress, q: Progress): (r: bool)
    ensures r ==> p != q
  {
    match (p, q)
    case (BeforeGenesis, _) => !q.BeforeGenesis?
    case (_, BeforeGenesis) => false
    case (FinalCheckpoint, _) => false
    case (_, FinalCheckpoint) => true
    case (_, _) => p.height < q.height
  }

  /** The tip hash and progress for a state tip. */
  function ProgressFromTip(cps: Checkpoints, tip: Option<(nat, Hash)>): (Option<Hash>, Progress)
    requires ValidCheckpoints(cps)
  {
    match tip
    case Some((height, hash)) =>
      if height >= MaxHeight(cps) then (None, FinalCheckpoint) else (Some(hash), InitialTip(height))
    case None => (None, BeforeGenesis)
  }

  /** Accepts exactly the heights that are still to be verified by a checkpoint. */
  function CheckHeight(cps: Checkpoints, p: Progress, height: nat): (r: Reply<()>)
    requires ValidCheckpoints(cps)
    ensures r.Ok? <==> Low(cps, p) < height <= MaxHeight(cps)
    ensures r.Err? ==>
              r.error == if height > MaxHeight(cps) then TooHigh(height, MaxHeight(cps))
                         else if p.FinalCheckpoint? then Finished
                         else AlreadyVerified(height, Low(cps, p))
  {
    if height > MaxHeight(cps) then Err(TooHigh(height, MaxHeight(cps)))
    else match p
      case BeforeGenesis => Ok(())
      case InitialTip(h) => if height <= h then Err(AlreadyVerified(height, h)) else Ok(())
      case PreviousCheckpoint(h) => if height <= h then Err(AlreadyVerified(height, h)) else Ok(())
      case FinalCheckpoint => Err(Finished)
  }

  // -------------------------------------------------------------------------
  // The target checkpoint.

  /** Every height above `low` up to `high` has queued blocks. */
  ghost predicate Covered(q: Queue, low: int, high: int) {
    forall h :: low < h <= high ==> h in q
  }

  /** The target is the highest checkpoint that an unbroken run of queued heights reaches. */
  ghost predicate IsTarget(cps: Checkpoints, q: Queue, low: int, t: Target) {
    match t
    case Checkpoint(h) =>
      && h in cps && low < h && Covered(q, low, h)
      && forall c :: c in cps && c > h ==> !Covered(q, low, c)
    case WaitingForBlocks => forall c :: c in cps && c > low ==> !Covered(q, low, c)
    case FinishedVerifying => false
  }

  lemma {:induction false} TargetUnique(cps: Checkpoints, q: Queue, low: int, s: Target, t: Target)
    requires IsTarget(cps, q, low, s) && IsTarget(cps, q, low, t)
    ensures s == t
  {
  }

  // -------------------------------------------------------------------------
  // The queue.

  ghost predicate DistinctHashes(list: seq<QueuedBlock>) {
    forall i, j :: 0 <= i < j < |list| ==> list[i].block.hash != list[j].block.hash
  }

  ghost predicate ValidList(list: seq<QueuedBlock>, h: nat) {
    && 1 <= |list| <= MAX_QUEUED_BLOCKS_PER_HEIGHT
    && DistinctHashes(list)
    && forall i :: 0 <= i < |list| ==> list[i].block.height == h
  }

  /** Every list is non-empty, short, free of duplicates and filed under its own height. */
  ghost predicate ValidQueue(cps: Checkpoints, q: Queue)
    requires ValidCheckpoints(cps)
  {
    forall h :: h in q ==> h <= MaxHeight(cps) && ValidList(q[h], h)
  }

  /** The request with identity `tx` waits in the queue. */
  ghost predicate Waiting(q: Queue, b: QueuedBlock) {
    b.block.height in q && b in q[b.block.height]
  }

  /** Every accepted request is answered or waits in the queue, never both. */
  ghost predicate Accounted(q: Queue, accepted: map<nat, QueuedBlock>, answered: map<nat, Reply<Hash>>) {
    && (forall h, b :: h in q && b in q[h] ==>
          b.block.height == h && b.tx in accepted && accepted[b.tx] == b && b.tx !in answered)
    && (forall tx :: tx in answered ==> tx in accepted)
    && (forall tx :: tx in accepted ==> accepted[tx].tx == tx)
    && (forall tx :: tx in accepted && tx !in answered ==> Waiting(q, accepted[tx]))
  }

  /** A waiting request occupies exactly one place in the queue. */
  lemma {:induction false} QueuedExactlyOnce(cps: Checkpoints, q: Queue, accepted: map<nat, QueuedBlock>,
                                             answered: map<nat, Reply<Hash>>, g: nat, i: nat, h: nat, j: nat)
    requires ValidCheckpoints(cps) && ValidQueue(cps, q) && Accounted(q, accepted, answered)
    requires g in q && i < |q[g]| && h in q && j < |q[h]|
    requires q[g][i].tx == q[h][j].tx
    ensures g == h && i == j
  {
    assert q[g][i] in q[g] && q[h][j] in q[h];
    assert ValidList(q[g], g);
    assert q[g][i] == q[h][j];
  }

  /** A list with `b` in place of the block of the same hash, or at the end if there is none. */
  function Put(list: seq<QueuedBlock>, b: QueuedBlock): (r: seq<QueuedBlock>)
  {
    if list == [] then [b]
    else if list[0].block.hash == b.block.hash then [b] + list[1..]
    else [list[0]] + Put(list[1..], b)
  }

  // -------------------------------------------------------------------------
  // Walking the hash chain backwards.

  /** The first block in a list with the expected hash. */
  function Match(list: seq<QueuedBlock>, expected: Hash): (r: Option<QueuedBlock>)
    ensures r.Some? ==> r.value in list && r.value.block.hash == expected
    ensures r.None? ==> forall b :: b in list ==> b.block.hash != expected
  {
    if list == [] then None
    else if list[0].block.hash == expected then Some(list[0])
    else Match(list[1..], expected)
  }

  /** How a backwards walk ends: at the start of the range, at a height with no matching block,
    * or at a checkpoint that contradicts the chain. `held` is in walking order. */
  datatype Walk =
    | Linked(held: seq<QueuedBlock>, parent: Hash)
    | Broken(height: nat, held: seq<QueuedBlock>)
    | Mismatch(height: nat)

  ghost function Descend(q: Queue, cps: Checkpoints, h: int, low: int, expected: Hash, held: seq<QueuedBlock>): Walk
    requires -1 <= low && Covered(q, low, h)
    decreases h - low
  {
    if h <= low then Linked(held, expected)
    else if h in cps && cps[h] != expected then Mismatch(h)
    else match Match(q[h], expected)
      case None => Broken(h, held)
      case Some(b) => Descend(q, cps, h - 1, low, b.block.prevHash, held + [b])
  }

  /** `b` is queued at height `h` and matches the checkpoint there, if there is one. */
  ghost predicate HeldAt(q: Queue, cps: Checkpoints, h: int, b: QueuedBlock) {
    h in q && b in q[h] && b.block.height == h && (h in cps ==> b.block.hash == cps[h])
  }

  /** `held` are queued blocks of the heights from `top` down to above `h`, each the parent of the one
    * before; `expected` is the parent hash of the last one; checkpoints among them match. */
  ghost predicate Held(q: Queue, cps: Checkpoints, top: int, h: int, first: Hash, expected: Hash,
                       held: seq<QueuedBlock>) {
    && |held| == top - h
    && (forall k :: 0 <= k < |held| ==> HeldAt(q, cps, top - k, held[k]))
    && (forall k, l :: 0 <= k < l < |held| && l == k + 1 ==> held[l].block.hash == held[k].block.prevHash)
    && (if held == [] then expected == first
        else held[0].block.hash == first && held[|held| - 1].block.prevHash == expected)
  }

  /** A walk that reaches the start of its range has found a hash-linked chain, one block per height. */
  lemma {:induction false} DescendHeld(q: Queue, cps: Checkpoints, top: int, h: int, low: int, first: Hash,
                                       expected: Hash, held: seq<QueuedBlock>)
    requires ValidCheckpoints(cps) && ValidQueue(cps, q) && -1 <= low <= h && Covered(q, low, h)
    requires Held(q, cps, top, h, first, expected, held)
    ensures var w := Descend(q, cps, h, low, expected, held);
            && (w.Linked? ==> Held(q, cps, top, low, first, w.parent, w.held))
            && (w.Broken? ==> low < w.height <= h && exists e ::
                  Held(q, cps, top, w.height, first, e, w.held) && Match(q[w.height], e) == None)
            && (w.Mismatch? ==> low < w.height <= h && w.height in cps)
    decreases h - low
  {
    if h > low && !(h in cps && cps[h] != expected) {
      var m := Match(q[h], expected);
      if m.Some? {
        assert ValidList(q[h], h);
        assert Held(q, cps, top, h - 1, first, m.value.block.prevHash, held + [m.value]);
        DescendHeld(q, cps, top, h - 1, low, first, m.value.block.prevHash, held + [m.value]);
      }
    }
  }

  // -------------------------------------------------------------------------
  // Chains.

  /** The hash that a block on top of `bs` must name as its parent. */
  ghost function TopHash(parent: Hash, bs: seq<Block>): Hash {
    if bs == [] then parent else bs[|bs| - 1].hash
  }

  /** `bs` is one hash-linked chain of consecutive heights above `low`, whose first block has the
    * parent hash `parent`, and which matches every checkpoint it crosses. */
  ghost predicate ChainAbove(cps: Checkpoints, low: int, parent: Hash, bs: seq<Block>) {
    && (forall i :: 0 <= i < |bs| ==> bs[i].height == low + 1 + i)
    && (forall i :: 0 <= i < |bs| && bs[i].height in cps ==> bs[i].hash == cps[bs[i].height])
    && (bs != [] ==> bs[0].prevHash == parent)
    && (forall i, j :: 0 <= i < j < |bs| && j == i + 1 ==> bs[j].prevHash == bs[i].hash)
  }

  lemma {:induction false} ChainAppend(cps: Checkpoints, low: int, parent: Hash, bs: seq<Block>, cs: seq<Block>)
    requires ChainAbove(cps, low, parent, bs)
    requires ChainAbove(cps, low + |bs|, TopHash(parent, bs), cs)
    ensures ChainAbove(cps, low, parent, bs + cs)
  {
  }

  function Blocks(qs: seq<QueuedBlock>): (bs: seq<Block>)
    ensures |bs| == |qs| && forall i :: 0 <= i < |bs| ==> bs[i] == qs[i].block
  {
    seq(|qs|, i requires 0 <= i < |qs| => qs[i].block)
  }

  function Reversed(qs: seq<QueuedBlock>): (rs: seq<QueuedBlock>)
    ensures |rs| == |qs| && forall i :: 0 <= i < |rs| ==> rs[i] == qs[|qs| - 1 - i]
  {
    seq(|qs|, i requires 0 <= i < |qs| => qs[|qs| - 1 - i])
  }

  /** Read forwards, the blocks a complete walk holds are a chain. */
  lemma {:induction false} HeldIsChain(q: Queue, cps: Checkpoints, top: int, low: int, first: Hash, parent: Hash,
                                       held: seq<QueuedBlock>)
    requires Held(q, cps, top, low, first, parent, held)
    ensures ChainAbove(cps, low, parent, Blocks(Reversed(held)))
  {
    var bs := Blocks(Reversed(held));
    forall i | 0 <= i < |bs|
      ensures bs[i].height == low + 1 + i
      ensures bs[i].height in cps ==> bs[i].hash == cps[bs[i].height]
    {
      var k := |held| - 1 - i;
      assert bs[i] == held[k].block && top - k == low + 1 + i;
    }
    forall i, j | 0 <= i < j < |bs| && j == i + 1
      ensures bs[j].prevHash == bs[i].hash
    {
      var k, l := |held| - 1 - j, |held| - 1 - i;
      assert bs[i] == held[l].block && bs[j] == held[k].block;
    }
  }

  // -------------------------------------------------------------------------
  // One chain behind all checkpoints and tips.

  /** `chain` runs from genesis to the last checkpoint, and every checkpoint lies on it. */
  ghost predicate OneChain(cps: Checkpoints, chain: seq<Block>)
    requires ValidCheckpoints(cps)
  {
    && |chain| == MaxHeight(cps) + 1
    && ChainAbove(cps, -1, GENESIS_PREVIOUS_BLOCK_HASH, chain)
  }

  /** A block with the hash of a chain block has the parent of that chain block. */
  ghost predicate NoCollision(chain: seq<Block>, b: Block) {
    forall h :: 0 <= h < |chain| && chain[h].hash == b.hash ==> chain[h].prevHash == b.prevHash
  }

  ghost predicate NoCollisions(chain: seq<Block>, q: Queue) {
    forall h, b :: h in q && b in q[h] ==> NoCollision(chain, b.block)
  }

  /** The hash expected at height `h` on the chain; below genesis it is the genesis parent. */
  ghost function HashAt(chain: seq<Block>, h: int): Hash
    requires -1 <= h < |chain|
  {
    if h == -1 then GENESIS_PREVIOUS_BLOCK_HASH else chain[h].hash
  }

  /** On one chain no checkpoint contradicts a walk, and a complete walk ends at the chain's own hash. */
  lemma {:induction false} DescendOnChain(q: Queue, cps: Checkpoints, chain: seq<Block>, h: int, low: int,
                                          expected: Hash, held: seq<QueuedBlock>)
    requires ValidCheckpoints(cps) && OneChain(cps, chain) && NoCollisions(chain, q)
    requires -1 <= low <= h < |chain| && Covered(q, low, h) && expected == HashAt(chain, h)
    ensures var w := Descend(q, cps, h, low, expected, held);
            !w.Mismatch? && (w.Linked? ==> w.parent == HashAt(chain, low))
    decreases h - low
  {
    if h <= low {
    } else {
      assert chain[h].height == h;
      var m := Match(q[h], expected);
      if m.Some? {
        assert NoCollision(chain, m.value.block);
        assert chain[h].hash == m.value.block.hash;
        if h > 0 { assert chain[h].prevHash == chain[h - 1].hash; }
        DescendOnChain(q, cps, chain, h - 1, low, m.value.block.prevHash, held + [m.value]);
      }
    }
  }
}
