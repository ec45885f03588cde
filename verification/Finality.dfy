/** The finality state machine: decided BFT blocks form a log, and the proof-of-work blocks that they
  * finalize are rewarded and have their staking commands applied. A panic ends a run. */
module Finality {
  import opened BftBlocks
  import opened Bytes
  import opened FatPointers
  import opened Options
  import opened PowChain
  import opened Rewards
  import opened Roster

  /** A proof-of-work header, known by its hash. */
  datatype Header = Header(hash: Hash)

  type Block = BftBlock<Header>

  /** How the state answers the request to finalize a block. */
  datatype Response = Finalized(hash: Hash) | FinalizeFailed | WrongResponse

  /** A decided block with the pointer to it, and what the state service knows at the time:
    * the heights of all known blocks, on whatever chain, and then the best chain. */
  datatype Decision = Decision(block: Block, pointer: FatPointer, signaturesValid: bool, known: map<Hash, nat>,
                               response: Response, best: seq<PowBlock>, maxResults: nat)

  /** Pointers have their fixed size, a block has the same height wherever it is known, and a block that the state has
    * finalized is on the best chain. */
  ghost predicate ValidDecision(heightOf: Hash -> nat, d: Decision) {
    && ValidFatPointer(d.pointer) && ValidFatPointer(d.block.previous)
    && ValidBest(d.best) && d.maxResults >= 1
    && (forall h :: h in d.known ==> d.known[h] == heightOf(h))
    && (forall i :: 0 <= i < |d.best| ==> heightOf(d.best[i].hash) == i)
    && (d.response.Finalized? ==> HeightByHash(d.best, d.response.hash).Some?)
  }

  /** What stands in the log for a block that was not decided yet. */
  function Placeholder(i: nat): Block {
    BftBlock(0, i, NullFatPointer(), 0, [])
  }

  /** Hashes have 32 bytes, no block hashes to zero, and none with headers has the hash of a placeholder. */
  ghost predicate HashSound(hash: Block -> Bytes) {
    && (forall b: Block :: |hash(b)| == 32 && hash(b) != Zeros(32))
    && (forall b: Block, i: nat :: b.headers != [] ==> hash(b) != hash(Placeholder(i)))
  }

  // -------------------------------------------------------------------------
  // The state and one decision, as values.

  /** `rewarded` lists the blocks that were rewarded so far, with their heights. */
  datatype State = State(log: seq<Block>, tip: FatPointer, final: Option<(nat, Hash)>, members: Members,
                         rewarded: seq<(nat, PowBlock)>)

  ghost function Start(members: Members): State {
    State([], NullFatPointer(), None, members, [])
  }

  lemma {:induction false} StartValid(members: Members)
    ensures ValidFatPointer(Start(members).tip)
  {
  }

  ghost function TipHash(hash: Block -> Bytes, log: seq<Block>): Bytes {
    if log == [] then Zeros(32) else hash(log[|log| - 1])
  }

  /** Block `i` of the log has height `i + 1` and names the hash of the block before; the tip pointer
    * names the last one; no placeholder is left. */
  ghost predicate ValidLog(hash: Block -> Bytes, log: seq<Block>, tip: FatPointer) {
    && ValidFatPointer(tip) && PointsAtBlockHash(tip) == TipHash(hash, log)
    && forall i :: 0 <= i < |log| ==> ValidEntry(hash, log, i)
  }

  ghost predicate ValidEntry(hash: Block -> Bytes, log: seq<Block>, i: nat)
    requires i < |log|
  {
    && log[i].height == i + 1 && log[i].headers != [] && ValidFatPointer(log[i].previous)
    && PointsAtBlockHash(log[i].previous) == TipHash(hash, log[..i])
  }

  /** The block has headers, and the first of them is of a known block. */
  predicate HasCandidate(d: Decision) {
    d.block.headers != [] && d.block.headers[0].hash in d.known
  }

  /** The finalization candidate of a decided block, with its known height. */
  function Candidate(d: Decision): (nat, Hash)
    requires HasCandidate(d)
  {
    (d.known[d.block.headers[0].hash], d.block.headers[0].hash)
  }

  /** Exactly which decisions are taken. */
  ghost predicate CanDecide(hash: Block -> Bytes, s: State, d: Decision)
    requires ValidFatPointer(d.pointer) && ValidFatPointer(d.block.previous) && ValidFatPointer(s.tip)
  {
    && PointsAtBlockHash(d.pointer) == hash(d.block) && d.signaturesValid
    && PointsAtBlockHash(d.block.previous) == PointsAtBlockHash(s.tip)
    && HasCandidate(d)
    && d.block.height == |s.log| + 1
    && (d.response == Finalized(d.block.headers[0].hash) || d.response.FinalizeFailed?)
  }

  /** A stretch of the chain, with heights. */
  function Segment(best: seq<PowBlock>, start: nat, end: nat): (s: seq<(nat, PowBlock)>)
    requires start <= end <= |best|
  {
    seq<(nat, PowBlock)>(end - start, i requires 0 <= i < end - start => ((start + i) as nat, best[start + i]))
  }

  /** The blocks that a candidate newly finalizes: all those above the last final block. */
  function NewlyFinal(final: Option<(nat, Hash)>, best: seq<PowBlock>, candidate: (nat, Hash)): seq<(nat, PowBlock)> {
    var (start, end) := Bounds(best, final.GetOr(candidate).1, Some(candidate), true);
    Segment(best, if final.Some? && start < end then start + 1 else start, end)
  }

  /** Each block first pays out one reward and then applies its staking commands. */
  ghost function Paid(m: Members, blocks: seq<(nat, PowBlock)>): Members {
    if blocks == [] then m
    else
      var before := Paid(m, blocks[..|blocks| - 1]);
      Commands(before.(vs := Rewarded(before.vs)), blocks[|blocks| - 1].1.txs)
  }

  ghost function Decide(s: State, d: Decision): State
    requires HasCandidate(d)
  {
    var blocks := NewlyFinal(s.final, d.best, Candidate(d));
    State(s.log + [d.block], d.pointer, Some(Candidate(d)), Paid(s.members, blocks), s.rewarded + blocks)
  }

  // -------------------------------------------------------------------------
  // The log.

  lemma {:induction false} DecideKeepsLog(hash: Block -> Bytes, s: State, d: Decision)
    requires ValidLog(hash, s.log, s.tip)
    requires ValidFatPointer(d.pointer) && ValidFatPointer(d.block.previous)
    requires CanDecide(hash, s, d)
    ensures ValidLog(hash, Decide(s, d).log, Decide(s, d).tip)
  {
    var log' := s.log + [d.block];
    forall i | 0 <= i < |log'| ensures ValidEntry(hash, log', i) {
      if i < |s.log| {
        assert ValidEntry(hash, s.log, i);
        assert log'[..i] == s.log[..i];
      } else {
        assert log'[..i] == s.log;
      }
    }
  }

  /** The pointer to the block of a height: the next block's previous pointer, or the tip pointer. */
  function FatPointerToBlockAtHeight(log: seq<Block>, tip: FatPointer, atHeight: nat): (r: Option<FatPointer>)
    ensures r.Some? <==> 1 <= atHeight <= |log|
  {
    if atHeight == 0 || atHeight - 1 >= |log| then None
    else if atHeight == |log| then Some(tip)
    else Some(log[atHeight].previous)
  }

  /** The pointer found for a height points at the block of that height. */
  lemma {:induction false} PointerNamesBlock(hash: Block -> Bytes, log: seq<Block>, tip: FatPointer, atHeight: nat)
    requires ValidLog(hash, log, tip) && 1 <= atHeight <= |log|
    ensures var p := FatPointerToBlockAtHeight(log, tip, atHeight).value;
            && ValidFatPointer(p) && PointsAtBlockHash(p) == hash(log[atHeight - 1])
            && log[atHeight - 1].height == atHeight
  {
    assert ValidEntry(hash, log, atHeight - 1);
    if atHeight < |log| {
      assert ValidEntry(hash, log, atHeight);
    }
  }

  /** The log extended by placeholders up to and including an index. */
  ghost function Padded(log: seq<Block>, insertAt: nat): seq<Block> {
    if insertAt < |log| then log
    else log + seq(insertAt + 1 - |log|, i requires 0 <= i < insertAt + 1 - |log| => Placeholder(|log| + i))
  }

  /** The checks before a block is written into the log. */
  predicate LogChecks(hash: Block -> Bytes, log: seq<Block>, at: nat, block: Block)
    requires at < |log| && |block.previous.template| == TEMPLATE_LEN
  {
    && (at > 0 ==> hash(log[at - 1]) == PointsAtBlockHash(block.previous))
    && (at == 0 || PointsAtBlockHash(block.previous) != Zeros(32))
    && log[at].headers == []
  }

  /** The checks on the log accept a block only at the next height: below it a decided block is in the
    * way, and above it the parent would be a placeholder. */
  lemma {:induction false} OnlyNextHeight(hash: Block -> Bytes, log: seq<Block>, tip: FatPointer, block: Block)
    requires HashSound(hash) && ValidLog(hash, log, tip) && block.height >= 1
    requires ValidFatPointer(block.previous) && PointsAtBlockHash(block.previous) == PointsAtBlockHash(tip)
    ensures var at, padded := block.height - 1, Padded(log, block.height - 1);
            && at < |padded|
            && (LogChecks(hash, padded, at, block) <==> block.height == |log| + 1)
            && (block.height == |log| + 1 ==> padded[at := block] == log + [block])
  {
    var at, padded := block.height - 1, Padded(log, block.height - 1);
    if at < |log| {
      assert ValidEntry(hash, log, at);
    } else if at == |log| {
      assert padded[at] == Placeholder(at);
      assert padded[at := block] == log + [block];
    } else {
      assert padded[at - 1] == Placeholder(at - 1);
      if log != [] {
        assert ValidEntry(hash, log, |log| - 1);
      }
    }
  }

  // -------------------------------------------------------------------------
  // What the rewarded blocks pay out.

  lemma {:induction false} PaidAppend(m: Members, a: seq<(nat, PowBlock)>, b: seq<(nat, PowBlock)>)
    ensures Paid(Paid(m, a), b) == Paid(m, a + b)
  {
    hide Commands, Rewarded;
    if b == [] {
      assert a + b == a;
    } else {
      var n := |b| - 1;
      PaidAppend(m, a, b[..n]);
      assert (a + b)[..|a| + n] == a + b[..n];
    }
  }

  /** One full reward for each block that found any stake, plus what the commands added and removed. */
  ghost function PaidChange(m: Members, blocks: seq<(nat, PowBlock)>): int {
    if blocks == [] then 0
    else
      var before := Paid(m, blocks[..|blocks| - 1]);
      PaidChange(m, blocks[..|blocks| - 1])
      + (if Total(before.vs) > 0 then POS_TOTAL_REWARD else 0)
      + CommandsChange(before.(vs := Rewarded(before.vs)), blocks[|blocks| - 1].1.txs)
  }

  lemma {:induction false} RewardKeepsKeysDistinct(vs: seq<Validator>)
    requires DistinctKeys(vs)
    ensures DistinctKeys(Rewarded(vs))
  {
    var vs' := Rewarded(vs);
    forall i, j | 0 <= i < j < |vs'| ensures vs'[i].key != vs'[j].key {
      RewardFair(vs, vs', i, j);
      RewardFair(vs, vs', j, i);
    }
  }

  /** The total stake is accounted for block by block, and distinct keys stay distinct. */
  lemma {:induction false} PaidTotal(m: Members, blocks: seq<(nat, PowBlock)>)
    ensures Total(Paid(m, blocks).vs) == Total(m.vs) + PaidChange(m, blocks)
    ensures DistinctKeys(m.vs) ==> DistinctKeys(Paid(m, blocks).vs)
  {
    hide Commands, Rewarded, Total, DistinctKeys, CommandsChange;
    if blocks == [] {
    } else {
      var n := |blocks| - 1;
      PaidTotal(m, blocks[..n]);
      var before := Paid(m, blocks[..n]);
      var rewarded := before.(vs := Rewarded(before.vs));
      RewardConserved(before.vs, rewarded.vs);
      CommandsTotal(rewarded, blocks[n].1.txs);
      if DistinctKeys(m.vs) {
        RewardKeepsKeysDistinct(before.vs);
      }
    }
  }

  // -------------------------------------------------------------------------
  // Every block once and in height order.

  /** Consecutive heights, each block the parent of the next. */
  ghost predicate Linked(blocks: seq<(nat, PowBlock)>) {
    forall i, j :: 0 <= i < j < |blocks| && j == i + 1 ==>
      blocks[j].0 == blocks[i].0 + 1 && blocks[j].1.prevHash == blocks[i].1.hash
  }

  /** One stretch of one chain, ending in a given block. */
  ghost predicate StretchTo(blocks: seq<(nat, PowBlock)>, end: (nat, Hash)) {
    blocks != [] && Linked(blocks) && blocks[|blocks| - 1].0 == end.0 && blocks[|blocks| - 1].1.hash == end.1
  }

  /** The rewarded blocks are exactly one stretch of one chain that ends in the latest final block. */
  ghost predicate Exact(s: State) {
    match s.final
    case None => s.rewarded == []
    case Some(final) => StretchTo(s.rewarded, final)
  }

  /** The candidate is the last final block again, or both are on the best chain with the candidate
    * not below. The first candidate only has to be on the best chain. */
  ghost predicate Continues(final: Option<(nat, Hash)>, d: Decision)
    requires HasCandidate(d)
  {
    var (height, hash) := Candidate(d);
    match final
    case None => HeightByHash(d.best, hash).Some?
    case Some((h, previous)) =>
      hash == previous || (HeightByHash(d.best, previous).Some? && HeightByHash(d.best, hash).Some? && h <= height)
  }

  lemma {:induction false} StretchAppend(a: seq<(nat, PowBlock)>, best: seq<PowBlock>, start: nat, end: nat)
    requires ValidBest(best) && start < end <= |best|
    requires a == [] || (start > 0 && StretchTo(a, (start - 1, best[start - 1].hash)))
    ensures StretchTo(a + Segment(best, start, end), (end - 1, best[end - 1].hash))
  {
    var s := a + Segment(best, start, end);
    forall i, j | 0 <= i < j < |s| && j == i + 1
      ensures s[j].0 == s[i].0 + 1 && s[j].1.prevHash == s[i].1.hash
    {
      if j >= |a| {
        var k := start + j - |a|;
        assert s[j] == (k, best[k]);
        if i >= |a| {
          assert s[i] == (k - 1, best[k - 1]);
        }
      }
    }
  }

  /** On the best chain a block is at the height it has everywhere. */
  lemma {:induction false} KnownHeight(heightOf: Hash -> nat, d: Decision, h: Hash)
    requires ValidDecision(heightOf, d)
    ensures HeightByHash(d.best, h).Some? ==> HeightByHash(d.best, h).value == heightOf(h)
  {
    hide HeightByHash;
  }

  /** What a candidate newly finalizes, case by case. */
  lemma {:induction false} NewlyFinalCases(heightOf: Hash -> nat, final: Option<(nat, Hash)>, d: Decision)
    requires ValidDecision(heightOf, d) && HasCandidate(d)
    requires final.Some? ==> final.value.0 == heightOf(final.value.1)
    ensures var c := Candidate(d);
            var on := HeightByHash(d.best, c.1);
            var start := HeightByHash(d.best, final.GetOr(c).1);
            && c.0 == heightOf(c.1) && (on.Some? ==> on.value == c.0)
            && (start.Some? ==> start.value == final.GetOr(c).0)
            && NewlyFinal(final, d.best, c) ==
               if start.None? || c.0 < start.value then []
               else if final.None? then [(c.0, d.best[c.0])]
               else if on.Some? then Segment(d.best, start.value + 1, c.0 + 1)
               else Segment(d.best, start.value + 1, |d.best|)
  {
    var c := Candidate(d);
    KnownHeight(heightOf, d, c.1);
    KnownHeight(heightOf, d, final.GetOr(c).1);
    assert c.0 == heightOf(c.1);
    hide HeightByHash, ValidDecision;
    if final.None? {
      FirstFinal(d.best, c);
    } else {
      NextFinal(d.best, final.value, c);
    }
  }

  lemma {:induction false} FirstFinal(best: seq<PowBlock>, c: (nat, Hash))
    requires var on := HeightByHash(best, c.1); on.Some? ==> on.value == c.0
    ensures NewlyFinal(None, best, c) == if HeightByHash(best, c.1).Some? then [(c.0, best[c.0])] else []
  {
    hide HeightByHash;
  }

  lemma {:induction false} NextFinal(best: seq<PowBlock>, final: (nat, Hash), c: (nat, Hash))
    requires var on := HeightByHash(best, c.1); on.Some? ==> on.value == c.0
    ensures var start := HeightByHash(best, final.1);
            NewlyFinal(Some(final), best, c) ==
            if start.None? || c.0 < start.value then []
            else Segment(best, start.value + 1, StopBefore(best, c.1))
  {
    hide HeightByHash;
  }

  /** Blocks up to a final block and the chain from there up to a candidate make one stretch. */
  lemma {:induction false} StretchContinues(a: seq<(nat, PowBlock)>, best: seq<PowBlock>, from: (nat, Hash),
                                            to: (nat, Hash))
    requires ValidBest(best) && from.0 <= to.0 < |best| && best[from.0].hash == from.1 && best[to.0].hash == to.1
    requires StretchTo(a, from)
    ensures StretchTo(a + Segment(best, from.0 + 1, to.0 + 1), to)
  {
    if from.0 < to.0 {
      StretchAppend(a, best, from.0 + 1, to.0 + 1);
    } else {
      assert a + Segment(best, from.0 + 1, to.0 + 1) == a;
    }
  }

  lemma {:induction false} StretchBegins(best: seq<PowBlock>, to: (nat, Hash))
    requires ValidBest(best) && to.0 < |best| && best[to.0].hash == to.1
    ensures StretchTo([] + [(to.0, best[to.0])], to)
  {
  }

  lemma {:induction false} ExactContinues(heightOf: Hash -> nat, s: State, d: Decision)
    requires ValidDecision(heightOf, d) && HasCandidate(d) && Continues(s.final, d)
    requires Exact(s) && (s.final.Some? ==> s.final.value.0 == heightOf(s.final.value.1))
    ensures Exact(Decide(s, d))
  {
    var c, blocks := Candidate(d), NewlyFinal(s.final, d.best, Candidate(d));
    NewlyFinalCases(heightOf, s.final, d);
    assert ValidBest(d.best);
    DecideFinal(s, d);
    hide ValidDecision, NewlyFinal, Decide, HeightByHash, StretchTo, Segment, ValidBest, HasCandidate, Candidate;
    assert StretchTo(s.rewarded + blocks, c) by {
      if s.final.None? {
        StretchBegins(d.best, c);
      } else {
        StretchGoesOn(s, d.best, c, blocks);
      }
    }
  }

  lemma {:induction false} DecideFinal(s: State, d: Decision)
    requires HasCandidate(d)
    ensures Decide(s, d).final == Some(Candidate(d))
    ensures Decide(s, d).rewarded == s.rewarded + NewlyFinal(s.final, d.best, Candidate(d))
  {
    hide NewlyFinal, Paid;
  }

  /** The rewarded blocks go on from the last final block, or it is the candidate again. */
  lemma {:induction false} StretchGoesOn(s: State, best: seq<PowBlock>, c: (nat, Hash), blocks: seq<(nat, PowBlock)>)
    requires s.final.Some? && StretchTo(s.rewarded, s.final.value) && ValidBest(best)
    requires var start, on := HeightByHash(best, s.final.value.1), HeightByHash(best, c.1);
             && (start.Some? ==> start.value == s.final.value.0) && (on.Some? ==> on.value == c.0)
             && (c == s.final.value || (start.Some? && on.Some? && s.final.value.0 <= c.0))
             && (start.None? ==> blocks == [])
             && (start.Some? && on.Some? && start.value <= c.0 ==> blocks == Segment(best, start.value + 1, c.0 + 1))
    ensures StretchTo(s.rewarded + blocks, c)
  {
    hide HeightByHash, StretchTo, Segment, ValidBest;
    if HeightByHash(best, s.final.value.1).Some? {
      StretchContinues(s.rewarded, best, s.final.value, c);
    } else {
      assert s.rewarded + blocks == s.rewarded;
    }
  }

  lemma {:induction false} ExactBreaks(heightOf: Hash -> nat, s: State, d: Decision)
    requires ValidDecision(heightOf, d) && HasCandidate(d) && !Continues(s.final, d)
    requires Exact(s) && (s.final.Some? ==> s.final.value.0 == heightOf(s.final.value.1))
    ensures !Exact(Decide(s, d))
  {
    var c, blocks := Candidate(d), NewlyFinal(s.final, d.best, Candidate(d));
    NewlyFinalCases(heightOf, s.final, d);
    DecideFinal(s, d);
    hide NewlyFinal, Decide, HeightByHash, Linked, ValidDecision;
    if blocks == [] {
      assert s.rewarded + blocks == s.rewarded;
    } else {
      assert (s.rewarded + blocks)[|s.rewarded + blocks| - 1] == blocks[|blocks| - 1];
    }
  }

  // -------------------------------------------------------------------------
  // Whole runs.

  /** A run of decisions that returns normally. */
  ghost predicate Runs(hash: Block -> Bytes, heightOf: Hash -> nat, s: State, ds: seq<Decision>)
    requires ValidFatPointer(s.tip)
    decreases |ds|
  {
    ds == [] ||
    (ValidDecision(heightOf, ds[0]) && CanDecide(hash, s, ds[0]) && Runs(hash, heightOf, Decide(s, ds[0]), ds[1..]))
  }

  ghost function After(hash: Block -> Bytes, heightOf: Hash -> nat, s: State, ds: seq<Decision>): State
    requires ValidFatPointer(s.tip) && Runs(hash, heightOf, s, ds)
    decreases |ds|
  {
    if ds == [] then s else After(hash, heightOf, Decide(s, ds[0]), ds[1..])
  }

  lemma {:induction false} RunsNone(hash: Block -> Bytes, heightOf: Hash -> nat, s: State)
    requires ValidFatPointer(s.tip)
    ensures Runs(hash, heightOf, s, []) && After(hash, heightOf, s, []) == s
  {
  }

  lemma {:induction false} RunFirst(hash: Block -> Bytes, heightOf: Hash -> nat, s: State, ds: seq<Decision>)
    requires ValidFatPointer(s.tip) && Runs(hash, heightOf, s, ds) && ds != []
    ensures ValidFatPointer(ds[0].pointer) && ValidFatPointer(ds[0].block.previous)
    ensures ValidDecision(heightOf, ds[0]) && CanDecide(hash, s, ds[0]) && HasCandidate(ds[0])
    ensures ValidFatPointer(Decide(s, ds[0]).tip)
    ensures Runs(hash, heightOf, Decide(s, ds[0]), ds[1..])
    ensures After(hash, heightOf, s, ds) == After(hash, heightOf, Decide(s, ds[0]), ds[1..])
  {
    hide ValidBest, NewlyFinal, Paid, ValidFatPointer, PointsAtBlockHash;
  }

  /** The blocks of a run of decisions. */
  ghost function Decided(ds: seq<Decision>): (bs: seq<Block>)
    ensures |bs| == |ds| && forall i :: 0 <= i < |ds| ==> bs[i] == ds[i].block
  {
    seq(|ds|, i requires 0 <= i < |ds| => ds[i].block)
  }

  lemma {:induction false} DecidedFirst(log: seq<Block>, ds: seq<Decision>)
    requires ds != []
    ensures log + [ds[0].block] + Decided(ds[1..]) == log + Decided(ds)
  {
    assert [ds[0].block] + Decided(ds[1..]) == Decided(ds);
  }

  lemma {:induction false} NoneDecided(log: seq<Block>)
    ensures log + Decided([]) == log
  {
  }

  /** Over every run the log grows by exactly the decided blocks, in order, each at its own height. */
  lemma {:induction false} RunKeepsLog(hash: Block -> Bytes, heightOf: Hash -> nat, s: State, ds: seq<Decision>)
    requires ValidLog(hash, s.log, s.tip) && Runs(hash, heightOf, s, ds)
    ensures var s' := After(hash, heightOf, s, ds);
            ValidLog(hash, s'.log, s'.tip) && s'.log == s.log + Decided(ds)
    decreases |ds|
  {
    assert ValidFatPointer(s.tip);
    hide Runs, After, ValidDecision, ValidLog, ValidFatPointer, Decide, CanDecide, HasCandidate, Decided;
    if ds == [] {
      RunsNone(hash, heightOf, s);
      NoneDecided(s.log);
    } else {
      RunFirst(hash, heightOf, s, ds);
      DecideKeepsLog(hash, s, ds[0]);
      DecideLog(s, ds[0]);
      RunKeepsLog(hash, heightOf, Decide(s, ds[0]), ds[1..]);
      DecidedFirst(s.log, ds);
    }
  }

  lemma {:induction false} DecideLog(s: State, d: Decision)
    requires HasCandidate(d)
    ensures Decide(s, d).log == s.log + [d.block]
  {
    hide NewlyFinal, Paid;
  }

  /** The decision at a place of a run from the state `s` can be taken there: its pointer names its block and is signed,
    * the block names the one before, has the next height and starts with a known header, and the state does not
    * finalize another block. */
  ghost predicate Acceptable(hash: Block -> Bytes, heightOf: Hash -> nat, s: State, ds: seq<Decision>, i: nat)
    requires i < |ds| && ValidFatPointer(s.tip)
  {
    var block := ds[i].block;
    && ValidDecision(heightOf, ds[i])
    && ds[i].signaturesValid && PointsAtBlockHash(ds[i].pointer) == hash(block)
    && PointsAtBlockHash(block.previous) == (if i == 0 then PointsAtBlockHash(s.tip) else hash(ds[i - 1].block))
    && block.height == |s.log| + i + 1
    && block.headers != [] && block.headers[0].hash in ds[i].known
    && (ds[i].response.FinalizeFailed? || ds[i].response == Finalized(block.headers[0].hash))
  }

  ghost predicate AllAcceptable(hash: Block -> Bytes, heightOf: Hash -> nat, s: State, ds: seq<Decision>)
    requires ValidFatPointer(s.tip)
  {
    forall i :: 0 <= i < |ds| ==> Acceptable(hash, heightOf, s, ds, i)
  }

  lemma {:induction false} FirstAcceptable(hash: Block -> Bytes, heightOf: Hash -> nat, s: State, ds: seq<Decision>)
    requires ValidFatPointer(s.tip) && ds != []
    ensures Acceptable(hash, heightOf, s, ds, 0) <==> ValidDecision(heightOf, ds[0]) && CanDecide(hash, s, ds[0])
  {
    hide ValidFatPointer, PointsAtBlockHash, ValidBest, HeightByHash;
  }

  lemma {:induction false} RestAcceptable(hash: Block -> Bytes, heightOf: Hash -> nat, s: State, ds: seq<Decision>)
    requires ValidFatPointer(s.tip) && ds != [] && ValidDecision(heightOf, ds[0]) && CanDecide(hash, s, ds[0])
    ensures AllAcceptable(hash, heightOf, s, ds) <==> AllAcceptable(hash, heightOf, Decide(s, ds[0]), ds[1..])
  {
    var next, rest := Decide(s, ds[0]), ds[1..];
    FirstAcceptable(hash, heightOf, s, ds);
    hide ValidFatPointer, PointsAtBlockHash, ValidDecision, NewlyFinal, Paid;
    forall i | 0 <= i < |rest|
      ensures Acceptable(hash, heightOf, next, rest, i) <==> Acceptable(hash, heightOf, s, ds, i + 1)
    {
    }
    hide Acceptable, CanDecide, Decide;
    if AllAcceptable(hash, heightOf, next, rest) {
      forall i | 0 <= i < |ds| ensures Acceptable(hash, heightOf, s, ds, i) {
        if i > 0 {
          assert Acceptable(hash, heightOf, next, rest, i - 1);
        }
      }
    }
    if AllAcceptable(hash, heightOf, s, ds) {
      forall i | 0 <= i < |rest| ensures Acceptable(hash, heightOf, next, rest, i) {
        assert Acceptable(hash, heightOf, s, ds, i + 1);
      }
    }
  }

  /** A run returns normally exactly if each of its decisions is acceptable at its place: over every run that does, each
    * decided pointer had valid signatures. */
  lemma {:induction false} RunsExactly(hash: Block -> Bytes, heightOf: Hash -> nat, s: State, ds: seq<Decision>)
    requires ValidFatPointer(s.tip)
    ensures Runs(hash, heightOf, s, ds) <==> AllAcceptable(hash, heightOf, s, ds)
    decreases |ds|
  {
    if ds == [] {
    } else {
      FirstAcceptable(hash, heightOf, s, ds);
      hide Acceptable, ValidFatPointer, CanDecide, Decide, ValidDecision;
      if ValidDecision(heightOf, ds[0]) && CanDecide(hash, s, ds[0]) {
        RestAcceptable(hash, heightOf, s, ds);
        TipKept(heightOf, s, ds[0]);
        hide AllAcceptable;
        RunsExactly(hash, heightOf, Decide(s, ds[0]), ds[1..]);
      }
    }
  }

  lemma {:induction false} TipKept(heightOf: Hash -> nat, s: State, d: Decision)
    requires ValidDecision(heightOf, d) && HasCandidate(d)
    ensures ValidFatPointer(Decide(s, d).tip)
  {
  }

  /** The latest final block is the first header of the block decided last, at its known height. */
  lemma {:induction false} RunFinalizes(hash: Block -> Bytes, heightOf: Hash -> nat, s: State, ds: seq<Decision>)
    requires ValidFatPointer(s.tip) && Runs(hash, heightOf, s, ds) && ds != []
    ensures var last := ds[|ds| - 1].block.headers;
            && last != [] && last[0].hash in ds[|ds| - 1].known
            && After(hash, heightOf, s, ds).final == Some((heightOf(last[0].hash), last[0].hash))
    decreases |ds|
  {
    hide NewlyFinal, Paid, ValidFatPointer, PointsAtBlockHash, ValidBest;
    if |ds| == 1 {
      assert ds[1..] == [];
    } else {
      RunFinalizes(hash, heightOf, Decide(s, ds[0]), ds[1..]);
    }
  }

  /** Over every run the roster is what the newly rewarded blocks pay out. */
  lemma {:induction false} RunPays(hash: Block -> Bytes, heightOf: Hash -> nat, s: State, ds: seq<Decision>)
    requires ValidFatPointer(s.tip) && Runs(hash, heightOf, s, ds)
    ensures var s' := After(hash, heightOf, s, ds);
            s.rewarded <= s'.rewarded && s'.members == Paid(s.members, s'.rewarded[|s.rewarded|..])
    decreases |ds|
  {
    hide NewlyFinal, PointsAtBlockHash, ValidFatPointer, ValidBest, Paid;
    if ds == [] {
      PaidNothing(s.members);
      assert s.rewarded[|s.rewarded|..] == [];
    } else {
      var next, s' := Decide(s, ds[0]), After(hash, heightOf, s, ds);
      var blocks := NewlyFinal(s.final, ds[0].best, Candidate(ds[0]));
      RunPays(hash, heightOf, next, ds[1..]);
      PaySplit(s.members, s.rewarded, blocks, s'.rewarded);
    }
  }

  lemma {:induction false} PaidNothing(m: Members)
    ensures Paid(m, []) == m
  {
  }

  lemma {:induction false} PaySplit(m: Members, before: seq<(nat, PowBlock)>, blocks: seq<(nat, PowBlock)>,
                                    all: seq<(nat, PowBlock)>)
    requires before + blocks <= all
    ensures before <= all
    ensures Paid(Paid(m, blocks), all[|before + blocks|..]) == Paid(m, all[|before|..])
  {
    hide Paid;
    var rest := all[|before + blocks|..];
    PaidAppend(m, blocks, rest);
    assert all == (before + blocks) + rest;
    assert all[|before|..] == blocks + rest;
  }

  /** Over every run the total stake is the initial total, plus one full reward for each rewarded block that
    * found any stake, plus what the commands added and removed; distinct keys stay distinct. */
  lemma {:induction false} RunTotal(hash: Block -> Bytes, heightOf: Hash -> nat, s: State, ds: seq<Decision>)
    requires ValidFatPointer(s.tip) && Runs(hash, heightOf, s, ds)
    ensures var s' := After(hash, heightOf, s, ds);
            && s.rewarded <= s'.rewarded
            && Total(s'.members.vs) == Total(s.members.vs) + PaidChange(s.members, s'.rewarded[|s.rewarded|..])
            && (DistinctKeys(s.members.vs) ==> DistinctKeys(s'.members.vs))
  {
    hide Total, DistinctKeys, PaidChange, Runs, After;
    RunPays(hash, heightOf, s, ds);
    PaidTotal(s.members, After(hash, heightOf, s, ds).rewarded[|s.rewarded|..]);
  }

  /** Every decision of a run continues from the last final block before it. */
  ghost predicate AllContinue(final: Option<(nat, Hash)>, ds: seq<Decision>)
    requires forall i :: 0 <= i < |ds| ==> HasCandidate(ds[i])
    decreases |ds|
  {
    ds == [] || (Continues(final, ds[0]) && AllContinue(Some(Candidate(ds[0])), ds[1..]))
  }

  /** The state is exact before and after every decision of a run. */
  ghost predicate AlwaysExact(s: State, ds: seq<Decision>)
    requires forall i :: 0 <= i < |ds| ==> HasCandidate(ds[i])
    decreases |ds|
  {
    Exact(s) && (ds == [] || AlwaysExact(Decide(s, ds[0]), ds[1..]))
  }

  /** From any exact state, every block up to the latest final one stays rewarded exactly once and in height
    * order after every decision, if and only if every candidate continues from the last final block. */
  lemma {:induction false} ExactThroughout(hash: Block -> Bytes, heightOf: Hash -> nat, s: State, ds: seq<Decision>)
    requires ValidFatPointer(s.tip) && Runs(hash, heightOf, s, ds)
    requires Exact(s) && (s.final.Some? ==> s.final.value.0 == heightOf(s.final.value.1))
    ensures forall i :: 0 <= i < |ds| ==> HasCandidate(ds[i])
    ensures AlwaysExact(s, ds) <==> AllContinue(s.final, ds)
    decreases |ds|
  {
    hide ValidFatPointer, PointsAtBlockHash, NewlyFinal, Paid, Continues, Exact;
    RunHasCandidates(hash, heightOf, s, ds);
    if ds == [] {
    } else {
      var next := Decide(s, ds[0]);
      if Continues(s.final, ds[0]) {
        ExactContinues(heightOf, s, ds[0]);
        ExactThroughout(hash, heightOf, next, ds[1..]);
      } else {
        ExactBreaks(heightOf, s, ds[0]);
        assert !AlwaysExact(next, ds[1..]);
      }
    }
  }

  lemma {:induction false} RunHasCandidates(hash: Block -> Bytes, heightOf: Hash -> nat, s: State, ds: seq<Decision>)
    requires ValidFatPointer(s.tip) && Runs(hash, heightOf, s, ds)
    ensures forall i :: 0 <= i < |ds| ==> HasCandidate(ds[i])
    decreases |ds|
  {
    hide ValidFatPointer, PointsAtBlockHash;
    if ds == [] {
    } else {
      RunHasCandidates(hash, heightOf, Decide(s, ds[0]), ds[1..]);
      forall i | 0 <= i < |ds| ensures HasCandidate(ds[i]) {
        if i > 0 {
          assert ds[i] == ds[1..][i - 1];
        }
      }
    }
  }
}
