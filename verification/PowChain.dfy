/** The best proof-of-work chain as the state service shows it, and the sequence of blocks read from it. */
module PowChain {
  import opened Options
  import opened Roster

  type Hash = nat

  /** The parent hash of the genesis block. */
  const NO_PARENT: Hash := 0

  /** A block, with the staking command of each transaction that has one. */
  datatype PowBlock = PowBlock(hash: Hash, prevHash: Hash, txs: seq<Option<Action>>)

  /** The hash just below a height. */
  function ParentHash(best: seq<PowBlock>, height: nat): Hash
    requires height <= |best|
  {
    if height == 0 then NO_PARENT else best[height - 1].hash
  }

  /** One hash-linked chain from genesis, with no two blocks of the same hash. */
  ghost predicate ValidBest(best: seq<PowBlock>) {
    && (forall i :: 0 <= i < |best| ==> best[i].hash != NO_PARENT)
    && (forall i, j :: 0 <= i < j < |best| ==> best[i].hash != best[j].hash)
    && (best != [] ==> best[0].prevHash == NO_PARENT)
    && (forall i, j :: 0 <= i < j < |best| && j == i + 1 ==> best[j].prevHash == best[i].hash)
  }

  function HeightByHash(best: seq<PowBlock>, hash: Hash): (r: Option<nat>)
    ensures r.Some? ==> r.value < |best| && best[r.value].hash == hash
    ensures r.None? ==> forall i :: 0 <= i < |best| ==> best[i].hash != hash
  {
    if best == [] then None
    else if best[|best| - 1].hash == hash then Some(|best| - 1)
    else HeightByHash(best[..|best| - 1], hash)
  }

  lemma {:induction false} HeightIsIndex(best: seq<PowBlock>, i: nat)
    requires ValidBest(best) && i < |best|
    ensures HeightByHash(best, best[i].hash) == Some(i)
  {
    var r := HeightByHash(best, best[i].hash);
    assert r.Some?;
  }

  function Min(a: int, b: int): int {
    if a <= b then a else b
  }

  /** The height after the last one that a query with stop hash `stop` returns. */
  function StopBefore(best: seq<PowBlock>, stop: Hash): (end: nat)
    ensures end <= |best|
    ensures if exists i :: 0 <= i < |best| && best[i].hash == stop then end >= 1 && best[end - 1].hash == stop
            else end == |best|
  {
    match HeightByHash(best, stop)
    case None => |best|
    case Some(h) => h + 1
  }

  /** At most `maxResults` hashes after `known`, or from genesis if `known` is not on the chain,
    * up to `stop` if that is on the chain. */
  function FindBlockHashes(best: seq<PowBlock>, known: Hash, stop: Hash, maxResults: nat): (hashes: seq<Hash>)
  {
    var start := match HeightByHash(best, known) case None => 0 case Some(h) => h + 1;
    var end := Min(start + maxResults, StopBefore(best, stop));
    if end <= start then [] else seq<Hash>(end - start, i requires 0 <= i < end - start => best[start + i].hash)
  }

  /** Where a block sequence begins and ends; empty if the start is unknown or above the final height. */
  function Bounds(best: seq<PowBlock>, startHash: Hash, final: Option<(nat, Hash)>, includeStart: bool): (r: (nat, nat))
    ensures r.0 <= r.1 <= |best|
  {
    match HeightByHash(best, startHash)
    case None => (0, 0)
    case Some(h) =>
      var start := if includeStart then h else h + 1;
      var (finalHeight, finalHash) := final.GetOr((|best| - 1, best[|best| - 1].hash));
      if finalHeight < start || StopBefore(best, finalHash) < start then (start, start)
      else (start, StopBefore(best, finalHash))
  }

  /** The heights and hashes of a stretch of the chain. */
  function HeightHashes(best: seq<PowBlock>, start: nat, end: nat): (s: seq<(nat, Hash)>)
    requires start <= end <= |best|
  {
    seq<(nat, Hash)>(end - start, i requires 0 <= i < end - start => ((start + i) as nat, best[start + i].hash))
  }

  /** A query that starts just below `at` returns the hashes from `at` on, and nothing only at the end. */
  lemma {:induction false} FindFrom(best: seq<PowBlock>, known: Hash, at: nat, stop: Hash, maxResults: nat)
    requires ValidBest(best) && at <= |best| && maxResults >= 1
    requires known == ParentHash(best, at)
    ensures var chunk := FindBlockHashes(best, known, stop, maxResults);
            && (chunk == [] <==> at >= StopBefore(best, stop))
            && (chunk != [] ==> at + |chunk| <= StopBefore(best, stop) <= |best|)
            && (chunk != [] ==> |chunk| == Min(maxResults, StopBefore(best, stop) - at))
            && (forall i :: 0 <= i < |chunk| ==> chunk[i] == best[at + i].hash)
  {
    if at > 0 {
      HeightIsIndex(best, at - 1);
    } else {
      assert HeightByHash(best, known).None?;
    }
  }

  /** Part of the way through reading up to `limit`: `hashes` are read, the last `k` of them from `chunk`. */
  ghost predicate Reading(best: seq<PowBlock>, start: nat, limit: nat, hashes: seq<(nat, Hash)>, chunk: seq<Hash>,
                          k: nat) {
    && start + |hashes| <= limit <= |best|
    && hashes == HeightHashes(best, start, start + |hashes|)
    && k <= |chunk| && k <= |hashes| && (chunk == [] ==> hashes == [])
    && start + |hashes| - k + |chunk| <= limit
    && forall i :: 0 <= i < |chunk| ==> chunk[i] == best[start + |hashes| - k + i].hash
  }

  lemma {:induction false} ReadStart(best: seq<PowBlock>, start: nat, limit: nat)
    requires start <= limit <= |best|
    ensures Reading(best, start, limit, [], [], 0)
  {
  }

  lemma {:induction false} ReadNext(best: seq<PowBlock>, start: nat, limit: nat, hashes: seq<(nat, Hash)>,
                                    chunk: seq<Hash>, k: nat)
    requires Reading(best, start, limit, hashes, chunk, k) && k < |chunk|
    ensures Reading(best, start, limit, hashes + [(start + |hashes|, chunk[k])], chunk, k + 1)
    ensures start + |hashes| < limit
  {
    assert chunk[k] == best[start + |hashes|].hash;
  }

  /** When a chunk is used up, the next query starts just below the next height. */
  lemma {:induction false} Refill(best: seq<PowBlock>, start: nat, limit: nat, initHash: Hash, stop: Hash,
                                  maxResults: nat, hashes: seq<(nat, Hash)>, chunk: seq<Hash>)
    requires ValidBest(best) && maxResults >= 1 && start <= |best|
    requires initHash == ParentHash(best, start)
    requires limit == if start <= StopBefore(best, stop) then StopBefore(best, stop) else start
    requires Reading(best, start, limit, hashes, chunk, |chunk|)
    ensures var chunk' := FindBlockHashes(best, if chunk == [] then initHash else chunk[|chunk| - 1], stop, maxResults);
            if chunk' == [] then hashes == HeightHashes(best, start, limit)
            else Reading(best, start, limit, hashes, chunk', 0)
  {
    hide ValidBest, FindBlockHashes, StopBefore, HeightByHash;
    if chunk != [] {
      assert chunk[|chunk| - 1] == best[start + |hashes| - 1].hash;
    }
    FindFrom(best, if chunk == [] then initHash else chunk[|chunk| - 1], start + |hashes|, stop, maxResults);
  }

  /** The block at a height is to be read: it comes at or after the start, which is not above the final height, and not
    * after the final block. */
  ghost predicate InSequence(best: seq<PowBlock>, startHash: Hash, final: Option<(nat, Hash)>, includeStart: bool,
                             height: nat) {
    exists s ::
      && 0 <= s < |best| && best[s].hash == startHash
      && ReadFrom(best, if includeStart then s else s + 1, final, height)
  }

  ghost predicate ReadFrom(best: seq<PowBlock>, start: nat, final: Option<(nat, Hash)>, height: nat) {
    && start <= height < |best|
    && (final.Some? ==>
          start <= final.value.0 && forall f :: 0 <= f < |best| && best[f].hash == final.value.1 ==> height <= f)
  }

  /** The bounds of a sequence enclose exactly the blocks that are to be read. */
  lemma {:induction false} BoundsExact(best: seq<PowBlock>, startHash: Hash, final: Option<(nat, Hash)>,
                                       includeStart: bool, height: nat)
    requires ValidBest(best)
    ensures var (start, end) := Bounds(best, startHash, final, includeStart);
            start <= height < end <==> InSequence(best, startHash, final, includeStart, height)
  {
    match HeightByHash(best, startHash)
    case None =>
    case Some(s) =>
      var start := if includeStart then s else s + 1;
      BoundsFrom(best, start, final, height);
      assert forall t :: 0 <= t < |best| && best[t].hash == startHash ==> t == s;
      hide ValidBest, HeightByHash, ReadFrom, StopBefore;
  }

  lemma {:induction false} BoundsFrom(best: seq<PowBlock>, start: nat, final: Option<(nat, Hash)>, height: nat)
    requires ValidBest(best) && best != []
    ensures var (finalHeight, finalHash) := final.GetOr((|best| - 1, best[|best| - 1].hash));
            finalHeight >= start && start <= height < StopBefore(best, finalHash) <==>
            ReadFrom(best, start, final, height)
  {
    var (finalHeight, finalHash) := final.GetOr((|best| - 1, best[|best| - 1].hash));
    var end := StopBefore(best, finalHash);
    assert final.None? ==> end == |best| by {
      if final.None? { HeightIsIndex(best, |best| - 1); }
    }
    hide StopBefore;
    if exists i :: 0 <= i < |best| && best[i].hash == finalHash {
      assert forall f :: 0 <= f < |best| && best[f].hash == finalHash ==> f == end - 1;
    }
    hide ValidBest;
  }

  /** Blocks of consecutive heights, each with its hash. */
  ghost predicate Stretch(best: seq<PowBlock>, hashes: seq<(nat, Hash)>) {
    forall i :: 0 <= i < |hashes| ==>
      && hashes[i].0 == hashes[0].0 + i
      && hashes[i].0 < |best| && hashes[i].1 == best[hashes[i].0].hash
  }

  ghost predicate HasHeight(hashes: seq<(nat, Hash)>, height: nat) {
    exists i :: 0 <= i < |hashes| && hashes[i].0 == height
  }

  lemma {:induction false} SequenceExact(best: seq<PowBlock>, startHash: Hash, final: Option<(nat, Hash)>,
                                         includeStart: bool)
    requires ValidBest(best)
    ensures var (start, end) := Bounds(best, startHash, final, includeStart);
            var hashes := HeightHashes(best, start, end);
            && Stretch(best, hashes)
            && forall h :: HasHeight(hashes, h) <==> InSequence(best, startHash, final, includeStart, h)
  {
    var (start, end) := Bounds(best, startHash, final, includeStart);
    var hashes := HeightHashes(best, start, end);
    hide Bounds, ValidBest, InSequence;
    forall h: nat ensures HasHeight(hashes, h) <==> InSequence(best, startHash, final, includeStart, h) {
      BoundsExact(best, startHash, final, includeStart, h);
      if start <= h < end {
        assert hashes[h - start].0 == h;
      }
    }
  }

  /** Reads the blocks from `startHash` to the final block in chunks of at most `maxResults` hashes.
    * The loop ends for every chunk size, and the check on the first hash never fails. */
  method BlockSequence(best: seq<PowBlock>, maxResults: nat, startHash: Hash, final: Option<(nat, Hash)>,
                       includeStart: bool)
    returns (hashes: seq<(nat, Hash)>)
    requires ValidBest(best) && maxResults >= 1
    ensures var (start, end) := Bounds(best, startHash, final, includeStart);
            hashes == HeightHashes(best, start, end)
    ensures Stretch(best, hashes)
    ensures forall h :: HasHeight(hashes, h) <==> InSequence(best, startHash, final, includeStart, h)
  {
    SequenceExact(best, startHash, final, includeStart);
    hide Stretch, HasHeight, InSequence;
    var height := HeightByHash(best, startHash);
    if height.None? {
      return [];
    }
    var startHeight, initHash := height.value, best[height.value].prevHash;
    if !includeStart {
      startHeight, initHash := height.value + 1, startHash;
    }
    var (finalHeight, finalHash) := final.GetOr((|best| - 1, best[|best| - 1].hash));
    if finalHeight < startHeight {
      return [];
    }
    assert includeStart ==> startHeight < |best| && best[startHeight].hash == startHash;
    hashes := ReadChunks(best, maxResults, startHeight, initHash, finalHash);
    assert includeStart && hashes != [] ==> hashes[0].1 == startHash;
  }

  /** The loop that reads hashes chunk by chunk. */
  method ReadChunks(best: seq<PowBlock>, maxResults: nat, startHeight: nat, initHash: Hash, finalHash: Hash)
    returns (hashes: seq<(nat, Hash)>)
    requires ValidBest(best) && maxResults >= 1 && startHeight <= |best|
    requires initHash == ParentHash(best, startHeight)
    ensures var end := StopBefore(best, finalHash);
            hashes == HeightHashes(best, startHeight, if startHeight <= end then end else startHeight)
  {
    ghost var end := StopBefore(best, finalHash);
    ghost var limit := if startHeight <= end then end else startHeight;
    hashes := [];
    var chunk: seq<Hash> := [];
    var chunkIndex := 0;
    hide HeightByHash, FindBlockHashes, Reading, HeightHashes, ValidBest, StopBefore;
    ReadStart(best, startHeight, limit);
    while true
      invariant startHeight + |hashes| <= limit && chunkIndex <= |chunk|
      invariant Reading(best, startHeight, limit, hashes, chunk, chunkIndex)
      decreases limit - startHeight - |hashes|
    {
      if chunkIndex >= |chunk| {
        Refill(best, startHeight, limit, initHash, finalHash, maxResults, hashes, chunk);
        var chunkStartHash := if chunk == [] then initHash else chunk[|chunk| - 1];
        chunk := FindBlockHashes(best, chunkStartHash, finalHash, maxResults);
        chunkIndex := 0;
      }
      if chunkIndex < |chunk| {
        ReadNext(best, startHeight, limit, hashes, chunk, chunkIndex);
        hashes := hashes + [(startHeight + |hashes|, chunk[chunkIndex])];
      } else {
        break;
      }
      chunkIndex := chunkIndex + 1;
    }
  }
}
