/** The batch worker and its client handles, which share a channel, its semaphore and an error handle. */
module BatchWorker {
  import opened BatchProgress
  import opened BatchRuns
  import opened Batching
  import opened Options

  /** What the worker and all client handles share. */
  class Channel {
    var queue: seq<Message>
    var closed: bool
    var available: nat
    var semaphoreClosed: bool
    var sharedError: Option<Error>
    /** Whether the result of the worker task was taken from its handle, and whether a panic has aborted the process. */
    var joined: bool
    var aborted: bool
    var nextId: nat
    ghost var holders: set<nat>
    ghost var sent: map<nat, Message>
    ghost var answers: map<nat, Answer>

    constructor (permits: nat)
      ensures queue == [] && !closed && available == permits && !semaphoreClosed && sharedError == None
      ensures !joined && !aborted && nextId == 0 && holders == {} && sent == map[] && answers == map[]
    {
      queue, closed, available, semaphoreClosed, sharedError := [], false, permits, false, None;
      joined, aborted := false, false;
      nextId, holders, sent, answers := 0, {}, map[], map[];
    }

    ghost method Answer(m: Message, a: Answer)
      modifies this`answers
      ensures answers == old(answers)[m.id := a]
    {
      answers := answers[m.id := a];
    }
  }

  class Worker {
    const config: Config
    const channel: Channel
    var failed: Option<Error>
    var pendingItemsWeight: nat
    var pendingBatchTimer: bool
    var concurrentBatches: nat
    var task: Task
    /** Where the worker waits. */
    var phase: Phase
    ghost var batch: seq<Message>
    ghost var flushed: seq<seq<Message>>
    /** The request that was dropped with the worker. */
    ghost var abandoned: Option<nat>

    ghost function Abs(): State
      reads this, channel
    {
      State(channel.queue, channel.closed, channel.available, channel.semaphoreClosed, channel.holders,
            channel.sharedError, channel.joined, channel.aborted,
            failed, pendingItemsWeight, pendingBatchTimer, concurrentBatches, task, phase,
            channel.nextId, batch, flushed, channel.sent, channel.answers, abandoned)
    }

    ghost predicate Valid()
      reads this, channel
    {
      Inv(config, Abs())
    }

    /** A worker whose task its clients watch, or not. */
    constructor (maxItemsWeightInBatch: nat, maxBatches: nat, registered: bool)
      ensures config == Clamped(maxItemsWeightInBatch, maxBatches, registered) && fresh(channel)
      ensures Abs() == Initial(config) && Valid()
    {
      config := Clamped(maxItemsWeightInBatch, maxBatches, registered);
      channel := new Channel(Clamped(maxItemsWeightInBatch, maxBatches, registered).permits);
      failed, pendingItemsWeight, pendingBatchTimer, concurrentBatches, task := None, 0, false, 0, Running;
      phase, batch, flushed, abandoned := Selecting, [], [], None;
      new;
      InitialInv(config);
    }

    /** Registers a failure. Duplicate failures are ignored. */
    method RegisterFailure(error: Error)
      modifies this, channel
      ensures Abs() == Fail(old(Abs()), error)
    {
      if channel.sharedError.Some? {
        return;
      }
      channel.sharedError := Some(error);
      channel.closed := true;
      channel.semaphoreClosed := true;
      pendingBatchTimer := false;
      failed := Some(error);
    }

    /** Hands a request to the service once that is ready, or answers it with the error. A service that does not get
      * ready always leaves an error to answer with. */
    method ProcessReq(m: Message, serviceError: Option<Error>)
      requires failed.None? && channel.sharedError.None?
      modifies this, channel
      ensures Abs() == Process(old(Abs()), m, serviceError)
      ensures serviceError.Some? ==> failed.Some?
    {
      match serviceError {
        case None =>
          pendingItemsWeight := pendingItemsWeight + m.weight;
          batch := batch + [m];
          channel.Answer(m, Called);
        case Some(e) =>
          RegisterFailure(e);
          assert failed.Some?;
          channel.Answer(m, Answer.Failed(failed.value));
      }
    }

    /** Goes back to the select, and releases the permit of the request that was handled. */
    method FinishMessage()
      modifies this`phase, channel`available
      ensures Abs() == Handled(old(Abs()))
    {
      phase := Selecting;
      channel.available := channel.available + 1;
    }

    /** Goes on after a processed request: a full batch is to be flushed, a new one gets a timer. */
    method SettleBatch(isNewBatch: bool)
      modifies this, channel`available
      ensures Abs() == Settle(config, old(Abs()), isNewBatch)
    {
      if pendingItemsWeight >= config.maxItems {
        if failed.Some? {
          FinishMessage();
        } else {
          phase := Flushing(true);
        }
        return;
      }
      if isNewBatch {
        pendingBatchTimer := true;
      }
      FinishMessage();
    }

    /** Tells the service to flush the current batch once it is ready. */
    method FlushService(permit: bool, serviceError: Option<Error>)
      modifies this, channel
      ensures Abs() == Flush(old(Abs()), permit, serviceError)
    {
      match serviceError {
        case None =>
          concurrentBatches := concurrentBatches + 1;
          pendingItemsWeight := 0;
          pendingBatchTimer := false;
          flushed := flushed + [batch];
          batch := [];
        case Some(e) =>
          RegisterFailure(e);
      }
      assert Abs() == FlushBatch(old(Abs()), serviceError);
      if permit {
        FinishMessage();
      } else {
        phase := Selecting;
      }
    }

    /** A running batch has ended. */
    method BatchFinished(error: Option<Error>)
      requires concurrentBatches > 0
      modifies this, channel
      ensures Abs() == FinishBatch(old(Abs()), error)
    {
      concurrentBatches := concurrentBatches - 1;
      if error.Some? {
        RegisterFailure(error.value);
      }
    }

    /** Whether another batch may start: false exactly at the limit, never while a batch waits for its timer,
      * and if true then any flush stays within the limit. */
    method CanSpawnNewBatches() returns (r: bool)
      requires Valid()
      ensures concurrentBatches <= config.maxConcurrent && (!r <==> concurrentBatches == config.maxConcurrent)
      ensures pendingBatchTimer ==> r
      ensures r ==> forall error :: FlushBatch(Abs(), error).running <= config.maxConcurrent
    {
      r := concurrentBatches < config.maxConcurrent;
    }

    /** Takes a message off the channel. A failed worker answers it, another one waits for the service. */
    method ReceiveMessage()
      requires channel.queue != []
      modifies this, channel
      ensures Abs() == Receive(config, old(Abs()))
    {
      hide Settle;
      var m := channel.queue[0];
      channel.queue := channel.queue[1..];
      if failed.Some? {
        var isNewBatch := pendingItemsWeight == 0;
        channel.Answer(m, Answer.Failed(failed.value));
        SettleBatch(isNewBatch);
      } else {
        phase := Readying(m);
      }
    }

    /** Answers every queued request with the error. */
    method Drain()
      requires failed.Some?
      modifies channel
      ensures channel.answers == RepliedAll(old(channel.answers), old(channel.queue), Answer.Failed(failed.value))
      ensures Abs() == old(Abs()).(queue := [], answers := channel.answers,
                                   available := old(channel.available) + |old(channel.queue)|)
    {
      ghost var queue := channel.queue;
      ghost var i := 0;
      assert queue[..0] == [];
      while channel.queue != []
        invariant i <= |queue| && channel.queue == queue[i..]
        invariant channel.available == old(channel.available) + i
        invariant channel.answers == RepliedAll(old(channel.answers), queue[..i], Answer.Failed(failed.value))
        invariant unchanged(channel`closed, channel`semaphoreClosed, channel`sharedError, channel`nextId)
        invariant unchanged(channel`holders, channel`sent, channel`joined, channel`aborted)
        decreases |channel.queue|
      {
        var m := channel.queue[0];
        channel.queue := channel.queue[1..];
        channel.Answer(m, Answer.Failed(failed.value));
        channel.available := channel.available + 1;
        assert queue[..i + 1][..i] == queue[..i];
        i := i + 1;
      }
      assert queue[..i] == queue;
    }

    /** Drops what the worker is handling, with its permit. */
    method DropHeld()
      modifies this`phase, this`abandoned, channel`available
      ensures Abs() == Batching.DropHeld(old(Abs()))
    {
      if phase.Readying? || (phase.Flushing? && phase.permit) {
        channel.available := channel.available + 1;
      }
      if phase.Readying? {
        abandoned := Some(phase.message.id);
      }
      phase := Selecting;
    }

    /** Drops the worker as its task returns or is cancelled: it fails if it has not yet, and every request still
      * queued is answered. A request that it has in hand is dropped unanswered, and no other. */
    method Drop(how: Task)
      requires Valid() && task.Running? && (how.Cancelled? || (how.Returned? && phase.Selecting?))
      modifies this, channel
      ensures Valid() && Abs() == Exit(old(Abs()), how)
      ensures channel.answers.Keys == channel.sent.Keys <==> !old(phase).Readying?
      ensures abandoned == if old(phase).Readying? then Some(old(phase).message.id) else None
    {
      ExitKeepsInv(config, Abs(), how);
      ExitAnswers(config, Abs(), how);
      SharedIsFailed(this);
      hide Inv, RepliedAll, Exit;
      LetGo(how);
    }

    method LetGo(how: Task)
      requires channel.sharedError == failed
      modifies this, channel
      ensures Abs() == Exit(old(Abs()), how)
    {
      hide RepliedAll;
      DropHeld();
      ghost var dropped := Abs();
      FailLeaves(dropped, Closed);
      hide Batching.DropHeld, Fail;
      RegisterFailure(Closed);
      Drain();
      task := how;
    }

    /** The worker is in its select and a batch has finished. */
    predicate CanFinish(poll: Poll)
      reads this
    {
      task.Running? && phase.Selecting? && concurrentBatches > 0 && poll.batchResult.Some?
    }

    /** The worker is in its select with a pending batch, and has not failed. */
    predicate CanTimeOut()
      reads this
    {
      task.Running? && phase.Selecting? && failed.None? && pendingBatchTimer
    }

    /** One poll of the worker, up to its next await point. A running worker in its select panics exactly if no
      * concurrent batch is allowed. The error of a finished batch fails it, an elapsed timer makes it flush, and it
      * flushes once the service is ready. */
    method Turn(poll: Poll)
      requires Valid()
      modifies this, channel
      ensures Valid() && Abs() == Step(config, old(Abs()), poll)
      ensures channel.aborted <==>
              old(channel.aborted) || (old(task).Running? && old(phase).Selecting? && config.maxConcurrent == 0)
      ensures old(CanFinish(poll)) && poll.batchResult.value.Some? && old(failed).None? ==>
                failed == poll.batchResult.value
      ensures old(CanTimeOut()) && !old(CanFinish(poll)) && poll.timerElapsed ==>
                phase == Flushing(false) && batch == old(batch)
      ensures old(task).Running? && old(phase).Flushing? && poll.ready == Some(None) ==>
                flushed == old(flushed) + [old(batch)] && batch == [] && concurrentBatches == old(concurrentBatches) + 1
    {
      if task.Running? {
        TurnProgress(config, Abs(), poll);
      }
      StepKeepsInv(config, Abs(), poll);
      TurnEffect(config, Abs(), poll);
      WaitingNotFailed(this);
      hide Inv, Select, Settle, Process, Flush;
      if !task.Running? {
        return;
      }
      match phase {
        case Selecting =>
          SelectArm(poll);
        case Readying(m) =>
          if poll.ready.Some? {
            var isNewBatch := pendingItemsWeight == 0;
            ProcessReq(m, poll.ready.value);
            SettleBatch(isNewBatch);
          }
        case Flushing(permit) =>
          if poll.ready.Some? {
            FlushService(permit, poll.ready.value);
          }
      }
    }

    /** Polls the select. */
    method SelectArm(poll: Poll)
      requires Valid() && task.Running? && phase.Selecting?
      modifies this, channel
      ensures Abs() == Select(config, old(Abs()), poll)
    {
      hide Inv, Receive, Exit, FinishBatch, TimeOut;
      var canSpawn := CanSpawnNewBatches();
      if concurrentBatches == 0 && !pendingBatchTimer && !canSpawn {
        channel.aborted := true;
      } else {
        TakeArm(poll, canSpawn);
      }
    }

    /** Runs the first enabled arm of the select that is ready. */
    method TakeArm(poll: Poll, canSpawn: bool)
      requires Valid() && task.Running? && phase.Selecting? && ArmEnabled(config, Abs())
      requires canSpawn <==> concurrentBatches < config.maxConcurrent
      modifies this, channel
      ensures Abs() == Select(config, old(Abs()), poll)
      ensures old(CanTimeOut()) && !old(CanFinish(poll)) && poll.timerElapsed ==> phase == Flushing(false)
    {
      hide Inv, Receive, Exit, FinishBatch;
      if concurrentBatches > 0 && poll.batchResult.Some? {
        BatchFinished(poll.batchResult.value);
      } else if pendingBatchTimer && poll.timerElapsed {
        if failed.None? {
          phase := Flushing(false);
        }
      } else if canSpawn && channel.queue != [] {
        ReceiveMessage();
      } else if canSpawn && (channel.closed || poll.sendersGone) {
        Drop(Returned);
      }
    }
  }

  /** When the worker goes away every request is answered, but for the one in hand. */
  lemma {:induction false} ExitAnswers(c: Config, s: State, task: Task)
    requires Inv(c, s) && s.task.Running? && (task.Cancelled? || (task.Returned? && s.phase.Selecting?))
    ensures Exit(s, task).answers.Keys == Exit(s, task).sent.Keys <==> !s.phase.Readying?
    ensures Exit(s, task).abandoned == if s.phase.Readying? then Some(s.phase.message.id) else None
  {
    ExitKeepsInv(c, s, task);
    assert s.abandoned.None?;
    GoneRespondsToAll(c, Exit(s, task), 0, 0);
    hide Inv, RepliedAll;
  }

  lemma {:induction false} TurnProgress(c: Config, s: State, p: Poll)
    requires Inv(c, s) && s.task.Running?
    ensures var s' := Step(c, s, p);
            var healthy, finished := s.phase.Selecting? && s.failed.None?, s.running > 0 && p.batchResult.Some?;
            && (healthy && finished && p.batchResult.value.Some? ==> s'.failed == p.batchResult.value)
            && (healthy && !finished && s.timer && p.timerElapsed ==>
                  s'.phase == Flushing(false) && s'.batch == s.batch)
            && (s.phase.Flushing? && p.ready == Some(None) ==>
                  s'.flushed == s.flushed + [s.batch] && s'.batch == [] && s'.running == s.running + 1)
  {
    assert s.sharedError == s.failed;
    if s.phase.Flushing? && p.ready == Some(None) {
      FlushingTurn(c, s, p);
    }
    hide Inv, Receive, Exit, Flush, Settle, Process;
  }

  lemma {:induction false} WaitingNotFailed(w: Worker)
    requires w.Valid()
    ensures !w.phase.Selecting? ==> w.failed.None? && w.channel.sharedError.None?
  {
  }

  lemma {:induction false} SharedIsFailed(w: Worker)
    requires w.Valid()
    ensures w.channel.sharedError == w.failed
  {
  }

  /** A client handle. Each handle has its own identity and may hold one permit. */
  class Batch {
    const id: nat
    const worker: Worker
    var permit: bool

    ghost predicate Valid()
      reads this, worker, worker.channel
    {
      worker.Valid() && (permit <==> id in worker.channel.holders)
    }

    constructor (worker: Worker, id: nat)
      requires worker.Valid() && id !in worker.channel.holders
      ensures Valid() && this.worker == worker && this.id == id && !permit
    {
      this.worker, this.id, permit := worker, id, false;
    }

    /** Gives a permit back to the semaphore. */
    method DropPermit()
      requires permit <==> id in worker.channel.holders
      modifies this, worker.channel
      ensures !permit && worker.Abs() == Release(old(worker.Abs()), id)
    {
      if permit {
        permit := false;
        worker.channel.holders := worker.channel.holders - {id};
        worker.channel.available := worker.channel.available + 1;
      }
    }

    /** Gives up any permit and tries to get one, unless the worker is gone or has closed its channels. */
    method Acquire() returns (r: Readiness)
      requires permit <==> id in worker.channel.holders
      modifies this, worker.channel
      ensures permit <==> id in worker.channel.holders
      ensures (worker.Abs(), r) == Batching.PollReady(worker.config, old(worker.Abs()), id)
    {
      var channel := worker.channel;
      if worker.config.registered && !worker.task.Running? {
        if channel.joined {
          channel.aborted := true;
          return Panicked;
        }
        channel.joined := true;
        return NotReady(if worker.task.Cancelled? then TaskCancelled else channel.sharedError.GetOr(Closed));
      }
      if channel.closed {
        return NotReady(channel.sharedError.GetOr(Closed));
      }
      DropPermit();
      if channel.semaphoreClosed {
        return NotReady(channel.sharedError.GetOr(Closed));
      }
      if channel.available == 0 {
        return Pending;
      }
      channel.available := channel.available - 1;
      channel.holders := channel.holders + {id};
      permit := true;
      return Ready;
    }

    /** Asks for a permit to send one request. It is refused only because a watched worker task was cancelled, or with
      * the worker's error, and panics exactly if the end of the watched task was reported before. */
    method PollReady() returns (r: Readiness)
      requires Valid()
      modifies this, worker.channel
      ensures Valid() && (worker.Abs(), r) == Batching.PollReady(worker.config, old(worker.Abs()), id)
      ensures r.Ready? ==> permit
      ensures r.Ready? <==> !old(worker.channel.closed) && (old(worker.channel.available) > 0 || old(permit))
      ensures worker.channel.holders == old(worker.channel.holders) + (if r.Ready? then {id} else {})
      ensures r.Panicked? <==> worker.config.registered && old(worker.channel.joined)
      ensures r.NotReady? ==>
                if worker.config.registered && worker.task.Cancelled? then r.error == TaskCancelled
                else worker.failed == Some(r.error)
    {
      hide Inv, Batching.PollReady;
      PollReadyKeepsInv(worker.config, worker.Abs(), id);
      PollReadyExact(worker.config, worker.Abs(), id);
      r := Acquire();
    }

    /** Sends a request with the permit from an earlier `PollReady`. Without one it panics. The send fails only with the
      * worker's error. */
    method Call(weight: nat) returns (r: Outcome)
      requires Valid()
      modifies this, worker.channel
      ensures Valid() && !permit && (worker.Abs(), r) == Batching.Call(old(worker.Abs()), id, weight)
      ensures r.Panic? <==> !old(permit)
      ensures r.SendFailed? ==> worker.failed == Some(r.error)
      ensures r.Sent? <==> old(permit) && !old(worker.channel.closed)
      ensures r.Sent? ==> r.id !in old(worker.channel.sent)
      ensures r.Sent? ==> worker.channel.queue == old(worker.channel.queue) + [Message(r.id, weight)]
    {
      hide Inv;
      CallKeepsInv(worker.config, worker.Abs(), id, weight);
      CallExact(worker.config, worker.Abs(), id, weight);
      var channel := worker.channel;
      if !permit {
        channel.aborted := true;
        return Panic;
      }
      if channel.closed {
        DropPermit();
        return SendFailed(channel.sharedError.GetOr(Closed));
      }
      permit := false;
      channel.holders := channel.holders - {id};
      var m := Message(channel.nextId, weight);
      channel.queue := channel.queue + [m];
      channel.sent := channel.sent[m.id := m];
      channel.nextId := channel.nextId + 1;
      return Sent(m.id);
    }
  }
}
