/** What the checkpoint verifier answers over a run: which requests were replaced by a newer one for the same block, and
  * what each request was told. */
module CheckpointAnswers {
  import opened CheckpointRanges
  import opened CheckpointTypes
  import opened Options

  /** Four blocks with other hashes wait at the height of a request. */
  ghost predicate NoRoom(q: Queue, height: nat, hash: Hash) {
    height in q && |q[height]| >= 4 && forall b :: b in q[height] ==> b.block.hash != hash
  }

  /** What a call replies at once: a number to wait with, or why the request is refused. `p` is the progress after any
    * reset. */
  ghost function Replied(cps: Checkpoints, s: State, p: Progress, req: Request): Reply<nat>
    requires ValidCheckpoints(cps)
  {
    if p.FinalCheckpoint? then Err(Finished)
    else if req.coinbaseHeight.None? then Err(CoinbaseHeight)
    else
      var height := req.coinbaseHeight.value;
      if height > MaxHeight(cps) then Err(TooHigh(height, MaxHeight(cps)))
      else if height <= Low(cps, p) then Err(AlreadyVerified(height, Low(cps, p)))
      else if !req.valid then Err(InvalidBlock)
      else if NoRoom(s.queue, height, req.hash) then Err(QueuedLimit)
      else Ok(s.nextTx)
  }

  /** The reply to every call, and that a refused request changes nothing but for the reset. */
  lemma {:induction false} RepliesExactly(cps: Checkpoints, s: State, e: Event, s': State, r: Reply<nat>)
    requires ValidCheckpoints(cps) && Called(cps, s, e, s', r)
    ensures var s0 := Reset(cps, s, e);
            && r == Replied(cps, s, s0.progress, e.request)
            && (r.Err? ==> s' == s0)
            && (e.reset.Some? ==> (s0.tipHash, s0.progress) == ProgressFromTip(cps, e.reset.value))
  {
    hide Round, Enqueued, ProgressFromTip, Match;
    var s0 := Reset(cps, s, e);
    assert s0.queue == s.queue && s0.nextTx == s.nextTx;
    if !s0.progress.FinalCheckpoint? && e.request.coinbaseHeight.Some? {
      var admitted := Admit(cps, s0.progress, s0.queue, e.request);
      hide Admit, Reset;
      AdmitReplies(cps, s, s0.progress, e.request);
    }
  }

  lemma {:induction false} AdmitReplies(cps: Checkpoints, s: State, p: Progress, req: Request)
    requires ValidCheckpoints(cps) && !p.FinalCheckpoint? && req.coinbaseHeight.Some?
    ensures var admitted := Admit(cps, p, s.queue, req);
            Replied(cps, s, p, req) == if admitted.Ok? then Ok(s.nextTx) else Err(admitted.error)
  {
    hide Admit, CheckHeight;
    var height := req.coinbaseHeight.value;
    var checked := CheckHeight(cps, p, height);
  }

  /** The queue is valid and every request is accounted for. */
  ghost predicate Sound(cps: Checkpoints, s: State) {
    && ValidCheckpoints(cps) && ValidQueue(cps, s.queue) && Accounted(s.queue, s.accepted, s.answered)
    && forall tx :: tx in s.accepted ==> tx < s.nextTx
  }

  ghost predicate AllSound(cps: Checkpoints, trace: seq<State>) {
    forall i :: 0 <= i < |trace| ==> Sound(cps, trace[i])
  }

  lemma {:induction false} SoundAlone(cps: Checkpoints, s: State)
    requires Sound(cps, s)
    ensures AllSound(cps, [s])
  {
    hide Sound;
  }

  lemma {:induction false} AllSoundNext(cps: Checkpoints, trace: seq<State>, s: State)
    requires AllSound(cps, trace) && Sound(cps, s)
    ensures AllSound(cps, trace + [s])
  {
    hide Sound;
  }

  /** A call accepts a request for the very block that an older request waits for. */
  ghost predicate Replaces(s: State, e: Event, r: Reply<nat>, tx: nat) {
    r.Ok? && tx in s.accepted && tx !in s.answered && IsRequested(e.request, s.accepted[tx].block)
  }

  ghost predicate IsRequested(req: Request, block: Block) {
    req.coinbaseHeight == Some(block.height) && req.hash == block.hash
  }

  lemma {:induction false} EnqueuedAnswers(cps: Checkpoints, s: State, block: Block, tx: nat)
    requires Sound(cps, s)
    ensures var s' := Enqueued(s, block);
            var replaced := tx in s.accepted && tx !in s.answered
                            && s.accepted[tx].block.height == block.height && s.accepted[tx].block.hash == block.hash;
            && Stay(s.answered, s'.answered) && (replaced <==> tx in s'.answered && tx !in s.answered)
            && (replaced ==> s'.answered[tx] == Err(NewerRequest(block.height, block.hash)))
            && (tx in s.accepted ==> tx in s'.accepted && s'.accepted[tx] == s.accepted[tx])
  {
    var list := EntryOrDefault(s.queue, block.height);
    var older := Match(list, block.hash);
    if older.Some? {
      assert older.value in s.queue[block.height];
      assert ValidList(list, block.height);
      if tx in s.accepted && tx !in s.answered {
        assert Waiting(s.queue, s.accepted[tx]);
      }
    }
    hide Put, Match;
  }

  /** What a call answers: the replaced request with the newer one, and others as the round decides. */
  lemma {:induction false} CallAnswers(cps: Checkpoints, s: State, e: Event, s': State, r: Reply<nat>, tx: nat)
    requires Sound(cps, s) && Called(cps, s, e, s', r)
    ensures Stay(s.answered, s'.answered)
    ensures tx in s.accepted ==> tx in s'.accepted && s'.accepted[tx] == s.accepted[tx]
    ensures Replaces(s, e, r, tx) ==>
              var block := s.accepted[tx].block;
              tx in s'.answered && s'.answered[tx] == Err(NewerRequest(block.height, block.hash))
    ensures tx in s'.answered && tx !in s.answered && !Replaces(s, e, r, tx) ==>
              tx in s'.accepted && RoundAnswer(s'.accepted[tx], s'.answered[tx])
  {
    hide ProgressFromTip, ValidQueue, Accounted, Admit, Enqueued, Processed, RoundAnswer;
    var s0 := Reset(cps, s, e);
    assert Sound(cps, s0) && s0.accepted == s.accepted && s0.answered == s.answered;
    if r.Ok? {
      var block := Admit(cps, s0.progress, s0.queue, e.request).value;
      EnqueuedAnswers(cps, s0, block, tx);
    }
  }

  ghost predicate ReplacedBy(trace: seq<State>, events: seq<Event>, replies: seq<Reply<nat>>, i: nat, tx: nat)
    requires i < |trace| && i < |events| && i < |replies|
  {
    Replaces(trace[i], events[i], replies[i], tx)
  }

  /** Some call has replaced a request. */
  ghost predicate WasReplaced(trace: seq<State>, events: seq<Event>, replies: seq<Reply<nat>>, n: nat, tx: nat)
    requires n <= |trace| && n <= |events| && n <= |replies|
  {
    exists i :: 0 <= i < n && ReplacedBy(trace, events, replies, i, tx)
  }

  /** What a request is told: that a newer one has replaced it, exactly if one has, or what a round decides. */
  ghost predicate Explained(s: State, tx: nat, replaced: bool) {
    && (replaced ==> tx in s.answered)
    && (tx in s.answered ==>
          tx in s.accepted &&
          var b := s.accepted[tx];
          if replaced then s.answered[tx] == Err(NewerRequest(b.block.height, b.block.hash))
          else RoundAnswer(b, s.answered[tx]))
  }

  lemma {:induction false} ExplainedNext(cps: Checkpoints, s: State, e: Event, s': State, r: Reply<nat>, tx: nat,
                                         replaced: bool)
    requires Sound(cps, s) && Called(cps, s, e, s', r) && Explained(s, tx, replaced)
    ensures Explained(s', tx, replaced || Replaces(s, e, r, tx))
  {
    CallAnswers(cps, s, e, s', r, tx);
    hide Called, Sound, RoundAnswer;
  }

  /** Over every run from an unanswered state, a request is told that a newer one replaced it exactly if a later request
    * for the same block was accepted while it waited. Every other answer is success with the hash of its block, or the
    * other hash that the chain has in its place. */
  lemma {:induction false} AnswersExplained(cps: Checkpoints, trace: seq<State>, events: seq<Event>,
                                            replies: seq<Reply<nat>>, n: nat, tx: nat)
    requires ValidCheckpoints(cps) && Ran(cps, trace, events, replies) && AllSound(cps, trace) && n <= |events|
    requires trace[0].answered == map[]
    ensures Explained(trace[n], tx, WasReplaced(trace, events, replies, n, tx))
  {
    hide Sound, Called, ReplacedBy;
    if n == 0 {
    } else {
      AnswersExplained(cps, trace, events, replies, n - 1, tx);
      var before := WasReplaced(trace, events, replies, n - 1, tx);
      assert Called(cps, trace[n - 1], events[n - 1], trace[n], replies[n - 1]);
      ExplainedNext(cps, trace[n - 1], events[n - 1], trace[n], replies[n - 1], tx, before);
      ReplacedLast(trace, events, replies, n, tx);
    }
  }

  lemma {:induction false} ReplacedLast(trace: seq<State>, events: seq<Event>, replies: seq<Reply<nat>>, n: nat,
                                        tx: nat)
    requires 1 <= n <= |trace| && n <= |events| && n <= |replies|
    ensures WasReplaced(trace, events, replies, n, tx) <==>
            WasReplaced(trace, events, replies, n - 1, tx)
            || Replaces(trace[n - 1], events[n - 1], replies[n - 1], tx)
  {
    assert ReplacedBy(trace, events, replies, n - 1, tx) <==>
           Replaces(trace[n - 1], events[n - 1], replies[n - 1], tx);
    hide Replaces, ReplacedBy;
  }
}
