/** What a healthy batcher gets done, turn by turn, and what makes it fail: the first error that is reported to it,
  * when a batch is flushed, and when a request reaches the service. */
module BatchProgress {
  import opened BatchRuns
  import opened Batching
  import opened Options

  // -------------------------------------------------------------------------
  // The first error.

  /** The senders are gone, nothing is queued, and no other arm of the select comes first. */
  predicate NothingToDo(c: Config, s: State, p: Poll) {
    s.queue == [] && p.sendersGone && s.running < c.maxConcurrent && !(s.timer && p.timerElapsed)
  }

  /** The error that an event reports to the worker: that of a finished batch, that of a service which the worker waits
    * for, or that the worker goes away. */
  ghost function Reported(c: Config, s: State, e: Event): Option<Error> {
    if s.aborted || !s.task.Running? then None
    else match e
      case Turn(p) =>
        if !s.phase.Selecting? then p.ready.GetOr(None)
        else if s.running > 0 && p.batchResult.Some? then p.batchResult.value
        else if NothingToDo(c, s, p) then Some(Closed)
        else None
      case DropWorker => Some(Closed)
      case _ => None
  }

  /** The first error that is reported in a run. */
  ghost function FirstError(c: Config, es: seq<Event>): Option<Error> {
    if es == [] then None
    else
      var n := |es| - 1;
      if FirstError(c, es[..n]).Some? then FirstError(c, es[..n]) else Reported(c, Before(c, es, n), es[n])
  }

  lemma {:induction false} StepFails(c: Config, s: State, p: Poll)
    requires Inv(c, s) && s.failed.None? && s.task.Running? && !s.aborted
    ensures Step(c, s, p).failed == Reported(c, s, Turn(p))
  {
    assert s.sharedError.None? && !s.closed;
    match s.phase
    case Selecting =>
      if s.queue != [] {
        ReceiveLeaves(c, s);
      }
      hide Inv, Receive, RepliedAll;
    case Readying(m) =>
      if p.ready.Some? {
        ProcessLeaves(s, m, p.ready.value);
        SettleLeaves(c, Process(s, m, p.ready.value), s.pending == 0);
      }
      hide Inv, Process, Settle;
    case Flushing(_) =>
      hide Inv;
  }

  lemma {:induction false} NextFails(c: Config, s: State, e: Event)
    requires Inv(c, s)
    ensures Next(c, s, e).failed == if s.failed.Some? then s.failed else Reported(c, s, e)
  {
    NextKeeps(c, s, e);
    if s.failed.None? && !s.aborted {
      match e
      case Turn(p) =>
        if s.task.Running? {
          StepFails(c, s, p);
        }
        hide Inv, Step;
      case Ask(client) =>
        PollReadyRecord(c, s, client);
        hide Inv, PollReady;
      case Send(_, _) =>
        hide Inv;
      case DropWorker =>
        assert s.sharedError.None?;
        hide Inv, RepliedAll;
    } else {
      hide Inv, Next;
    }
  }

  /** Over every run the worker has failed exactly if an error was reported to it, and with the first one. */
  lemma {:induction false} FailsWithFirstError(c: Config, es: seq<Event>)
    requires c.maxItems >= 1
    ensures After(c, Initial(c), es).failed == FirstError(c, es)
  {
    if es == [] {
    } else {
      var n := |es| - 1;
      FailsWithFirstError(c, es[..n]);
      RunKeepsInv(c, es[..n]);
      hide Next, Inv, Initial, Reported;
      NextFails(c, After(c, Initial(c), es[..n]), es[n]);
    }
  }

  /** Every request that was refused was told the error that the worker failed with. */
  ghost predicate RefusedWithError(s: State) {
    forall id :: id in s.answers && s.answers[id].Failed? ==> s.failed == Some(s.answers[id].error)
  }

  lemma {:induction false} OneMoreRefusal(s: State, s': State, id: nat, a: Answer)
    requires RefusedWithError(s) && s'.answers == s.answers[id := a]
    requires (s.failed.Some? ==> s'.failed == s.failed) && (a.Failed? ==> s'.failed == Some(a.error))
    ensures RefusedWithError(s')
  {
  }

  lemma {:induction false} SelectRefuses(c: Config, s: State, p: Poll)
    requires Inv(c, s) && RefusedWithError(s) && s.phase.Selecting? && s.task.Running?
    ensures RefusedWithError(Select(c, s, p))
  {
    SelectGrows(c, s, p);
    hide Inv, Receive, Exit, FinishBatch;
    if !ArmEnabled(c, s) {
    } else if s.running > 0 && p.batchResult.Some? {
      FinishLeaves(s, p.batchResult.value);
    } else if s.timer && p.timerElapsed {
    } else if s.running < c.maxConcurrent && s.queue != [] {
      ReceiveLeaves(c, s);
    } else {
      ExitRefuses(c, s, Returned);
    }
  }

  lemma {:induction false} ExitRefuses(c: Config, s: State, task: Task)
    requires Inv(c, s) && RefusedWithError(s)
    ensures RefusedWithError(Exit(s, task))
  {
    ExitLeaves(s, task);
    var s' := Exit(s, task);
    assert s.sharedError == s.failed && s'.failed == Some(LastError(s)) by {
      hide RepliedAll;
    }
    hide Exit, Inv, LastError;
    forall id | id in s'.answers && s'.answers[id].Failed? ensures s'.failed == Some(s'.answers[id].error) {
      RepliedAllEffect(s.answers, s.queue, Failed(LastError(s)), id);
    }
  }

  lemma {:induction false} StepRefuses(c: Config, s: State, p: Poll)
    requires Inv(c, s) && RefusedWithError(s)
    ensures RefusedWithError(Step(c, s, p))
  {
    assert !s.phase.Selecting? ==> s.sharedError.None? && s.failed.None?;
    if s.task.Running? {
      match s.phase
      case Selecting =>
        SelectRefuses(c, s, p);
        hide Select, Inv;
      case Readying(m) =>
        if p.ready.Some? {
          ProcessLeaves(s, m, p.ready.value);
          SettleLeaves(c, Process(s, m, p.ready.value), s.pending == 0);
          hide Inv, Process, Settle, RefusedWithError;
          OneMoreRefusal(s, Step(c, s, p), m.id, if p.ready.value.None? then Called else Failed(p.ready.value.value));
        }
      case Flushing(permit) =>
        if p.ready.Some? {
          FlushLeaves(s, permit, p.ready.value);
        }
        hide Inv, Flush;
    }
  }

  lemma {:induction false} NextRefuses(c: Config, s: State, e: Event)
    requires Inv(c, s) && RefusedWithError(s)
    ensures RefusedWithError(Next(c, s, e))
  {
    hide Inv;
    match e
    case Turn(p) =>
      StepRefuses(c, s, p);
      hide Step;
    case Ask(client) =>
      PollReadyRecord(c, s, client);
      hide PollReady;
    case Send(client, weight) =>
      SendRecord(s, client, weight);
      hide Call;
    case DropWorker =>
      ExitRefuses(c, s, Cancelled);
      hide Exit;
  }

  /** Over every run each refused request is told the first error that was reported. */
  lemma {:induction false} RefusesWithFirstError(c: Config, es: seq<Event>)
    requires c.maxItems >= 1
    ensures var answers := After(c, Initial(c), es).answers;
            forall id :: id in answers && answers[id].Failed? ==> FirstError(c, es) == Some(answers[id].error)
  {
    FailsWithFirstError(c, es);
    RunRefuses(c, es);
    hide After, FirstError;
  }

  lemma {:induction false} RunRefuses(c: Config, es: seq<Event>)
    requires c.maxItems >= 1
    ensures RefusedWithError(After(c, Initial(c), es))
  {
    if es == [] {
    } else {
      var n := |es| - 1;
      RunRefuses(c, es[..n]);
      RunKeepsInv(c, es[..n]);
      hide Next, Inv, RefusedWithError, Initial;
      NextRefuses(c, After(c, Initial(c), es[..n]), es[n]);
    }
  }

  // -------------------------------------------------------------------------
  // How many batches run, and how many are flushed before they are full.

  /** A turn in which the worker learns that a batch has finished. */
  ghost predicate Finishes(s: State, e: Event) {
    e.Turn? && s.task.Running? && !s.aborted && s.phase.Selecting? && s.running > 0 && e.poll.batchResult.Some?
  }

  ghost function FinishedBatches(c: Config, es: seq<Event>): nat {
    if es == [] then 0
    else
      var n := |es| - 1;
      FinishedBatches(c, es[..n]) + if Finishes(Before(c, es, n), es[n]) then 1 else 0
  }

  /** The batches flushed that weigh less than the limit. */
  ghost function LightBatches(c: Config, batches: seq<seq<Message>>): nat {
    if batches == [] then 0
    else
      var n := |batches| - 1;
      LightBatches(c, batches[..n]) + if Weight(batches[n]) < c.maxItems then 1 else 0
  }

  /** The turns in which the timer has elapsed. */
  ghost function ElapsedTurns(es: seq<Event>): nat {
    if es == [] then 0
    else
      var n := |es| - 1;
      ElapsedTurns(es[..n]) + if es[n].Turn? && es[n].poll.timerElapsed then 1 else 0
  }

  /** Light batches, with the one that waits to be flushed because its timer has elapsed. */
  ghost function LightSoFar(c: Config, s: State): nat {
    LightBatches(c, s.flushed) + if s.phase == Flushing(false) then 1 else 0
  }

  /** A batch that waits to be flushed with a permit is full. */
  ghost predicate FullWaits(c: Config, s: State) {
    s.phase == Flushing(true) ==> Weight(s.batch) >= c.maxItems
  }

  /** What a step does to the numbers of batches. */
  ghost predicate Counts(c: Config, s: State, s': State, finishes: bool, elapsed: bool) {
    && s'.running + (if finishes then 1 else 0) == s.running + |s'.flushed| - |s.flushed|
    && LightSoFar(c, s') <= LightSoFar(c, s) + (if elapsed then 1 else 0) && FullWaits(c, s')
  }

  lemma {:induction false} LightAppend(c: Config, batches: seq<seq<Message>>, b: seq<Message>)
    ensures LightBatches(c, batches + [b]) == LightBatches(c, batches) + if Weight(b) < c.maxItems then 1 else 0
  {
    assert (batches + [b])[..|batches|] == batches;
  }

  lemma {:induction false} SelectCounts(c: Config, s: State, p: Poll)
    requires Inv(c, s) && s.phase.Selecting? && s.task.Running?
    ensures Counts(c, s, Select(c, s, p), s.running > 0 && p.batchResult.Some?, p.timerElapsed)
  {
    hide Inv, Receive, Exit, FinishBatch, LightBatches, Weight;
    if !ArmEnabled(c, s) {
    } else if s.running > 0 && p.batchResult.Some? {
      FinishLeaves(s, p.batchResult.value);
      FinishRunning(s, p.batchResult.value);
    } else if s.timer && p.timerElapsed {
    } else if s.running < c.maxConcurrent && s.queue != [] {
      ReceiveLeaves(c, s);
      ReceivePhase(c, s);
    } else {
      ExitLeaves(s, Returned);
      ExitRunning(s, Returned);
    }
  }

  lemma {:induction false} ReceivePhase(c: Config, s: State)
    requires s.queue != [] && s.phase.Selecting?
    ensures !Receive(c, s).phase.Flushing?
  {
    if s.failed.Some? {
      var s1 := Reply(s.(queue := s.queue[1..]), s.queue[0], Failed(s.failed.value));
      assert Receive(c, s) == Settle(c, s1, s.pending == 0);
      SettlePhase(c, s1, s.pending == 0);
    }
    hide Settle;
  }

  lemma {:induction false} ExitRunning(s: State, task: Task)
    ensures Exit(s, task).running == s.running
  {
    hide RepliedAll;
  }

  lemma {:induction false} FinishRunning(s: State, e: Option<Error>)
    requires s.running > 0
    ensures FinishBatch(s, e).running == s.running - 1
  {
  }

  lemma {:induction false} ProcessCounts(c: Config, s: State, e: Option<Error>)
    requires Inv(c, s) && s.phase.Readying?
    ensures Counts(c, s, Settle(c, Process(s, s.phase.message, e), s.pending == 0), false, false)
  {
    var m := s.phase.message;
    WeightAppend(s.batch, m);
    assert s.sharedError.None? && s.failed.None? && s.pending == Weight(s.batch);
    hide Inv, LightBatches, Weight;
    var s1 := Process(s, m, e);
    ProcessLeaves(s, m, e);
    ProcessRunning(s, m, e);
    hide Process;
    SettleLeaves(c, s1, s.pending == 0);
    SettlePhase(c, s1, s.pending == 0);
    hide Settle;
  }

  lemma {:induction false} ProcessRunning(s: State, m: Message, e: Option<Error>)
    ensures var s1 := Process(s, m, e);
            s1.running == s.running && s1.pending == s.pending + if e.None? then m.weight else 0
  {
  }

  lemma {:induction false} SettlePhase(c: Config, s: State, isNew: bool)
    ensures var s' := Settle(c, s, isNew);
            && !s'.phase.Readying? && s'.phase != Flushing(false) && (s'.phase.Flushing? ==> s.pending >= c.maxItems)
            && (s'.phase.Flushing? ==> s.failed.None?)
  {
    hide LivesOn, SameRecord, Handled;
    assert s.(timer := s.timer) == s;
    HandledLeaves(s, s.timer);
    HandledLeaves(s, true);
  }

  lemma {:induction false} FlushCounts(c: Config, s: State, e: Option<Error>)
    requires Inv(c, s) && s.phase.Flushing? && FullWaits(c, s)
    ensures Counts(c, s, Flush(s, s.phase.permit, e), false, false)
  {
    LightAppend(c, s.flushed, s.batch);
    hide Inv, LightBatches, Weight;
  }

  lemma {:induction false} StepCounts(c: Config, s: State, p: Poll)
    requires Inv(c, s) && FullWaits(c, s) && s.task.Running? && !s.aborted
    ensures Counts(c, s, Step(c, s, p), Finishes(s, Turn(p)), p.timerElapsed)
  {
    hide Inv, LightBatches, Weight, Select, Process, Settle, Flush;
    match s.phase
    case Selecting =>
      SelectCounts(c, s, p);
    case Readying(m) =>
      if p.ready.Some? {
        ProcessCounts(c, s, p.ready.value);
      }
    case Flushing(permit) =>
      if p.ready.Some? {
        FlushCounts(c, s, p.ready.value);
      }
  }

  lemma {:induction false} NextCounts(c: Config, s: State, e: Event)
    requires Inv(c, s) && FullWaits(c, s)
    ensures Counts(c, s, Next(c, s, e), Finishes(s, e), e.Turn? && e.poll.timerElapsed)
  {
    match e
    case Turn(p) =>
      if s.task.Running? && !s.aborted {
        StepCounts(c, s, p);
      }
      hide Step, Inv, LightBatches, Weight;
    case Ask(client) =>
      PollReadyRecord(c, s, client);
      hide PollReady, Inv, LightBatches;
    case Send(client, weight) =>
      SendRecord(s, client, weight);
      hide Call, Inv, LightBatches;
    case DropWorker =>
      ExitLeaves(s, Cancelled);
      ExitRunning(s, Cancelled);
      hide Exit, Inv, LightBatches;
  }

  /** Over every run the batches that run are those flushed and not yet finished, and for each batch that was flushed
    * before it was full the timer had elapsed in some turn: without elapsed timers every flushed batch is full. */
  lemma {:induction false} BatchesCounted(c: Config, es: seq<Event>)
    requires c.maxItems >= 1
    ensures var s := After(c, Initial(c), es);
            && s.running + FinishedBatches(c, es) == |s.flushed|
            && LightBatches(c, s.flushed) <= LightSoFar(c, s) <= ElapsedTurns(es) && FullWaits(c, s)
  {
    if es == [] {
    } else {
      var n := |es| - 1;
      BatchesCounted(c, es[..n]);
      RunKeepsInv(c, es[..n]);
      hide Next, Inv, FullWaits, Initial, LightBatches, Finishes;
      NextCounts(c, After(c, Initial(c), es[..n]), es[n]);
    }
  }

  // -------------------------------------------------------------------------
  // When a batch is flushed.

  /** Nothing goes wrong: the worker is not dropped, and neither a batch nor the service fails. */
  predicate ErrorFree(e: Event) {
    && !e.DropWorker?
    && (e.Turn? ==> e.poll.batchResult.GetOr(None).None? && e.poll.ready.GetOr(None).None?)
  }

  /** A worker that has not failed. */
  ghost predicate Healthy(c: Config, s: State) {
    Inv(c, s) && s.task.Running? && s.failed.None?
  }

  /** A turn that brings the batch closer to its flush once its timer has elapsed: it is not used up by a finished
    * batch, and the service is ready if the worker waits for it. */
  predicate Advances(s: State, e: Event) {
    && e.Turn? && s.task.Running? && !s.aborted
    && if s.phase.Selecting? then s.running == 0 || e.poll.batchResult.None? else e.poll.ready.Some?
  }

  /** The advancing turns that are missing until the pending batch is flushed: one for the flush, one to notice the
    * timer, and one for a request in hand, which may fill the batch. */
  function TurnsToFlush(c: Config, s: State): nat {
    match s.phase
    case Selecting => 2
    case Readying(m) => if s.pending + m.weight >= c.maxItems then 2 else 3
    case Flushing(_) => 1
  }

  ghost function AdvancingTurns(c: Config, s: State, es: seq<Event>): nat {
    if es == [] then 0
    else
      var n := |es| - 1;
      AdvancingTurns(c, s, es[..n]) + if Advances(After(c, s, es[..n]), es[n]) then 1 else 0
  }

  /** The items that are pending in `s` still are. */
  ghost predicate StillPending(c: Config, s: State, s': State) {
    Healthy(c, s') && s'.flushed == s.flushed && s'.batch != [] && s.batch <= s'.batch
  }

  /** The next batch flushed after `s` starts with the items pending in `s`. */
  ghost predicate WasFlushed(s: State, s': State) {
    |s.flushed| < |s'.flushed| && s.flushed <= s'.flushed && s.batch <= s'.flushed[|s.flushed|]
  }

  lemma {:induction false} ReadiedTurn(c: Config, s: State, p: Poll)
    requires Healthy(c, s) && s.phase.Readying? && p.ready == Some(None)
    ensures var s', m := Step(c, s, p), s.phase.message;
            && s'.batch == s.batch + [m] && s'.flushed == s.flushed && s'.failed.None? && s'.task.Running?
            && s'.queue == s.queue && s'.answers == s.answers[m.id := Called] && s'.running == s.running
            && s'.phase == if s.pending + m.weight >= c.maxItems then Flushing(true) else Selecting
  {
    assert s.sharedError.None?;
    hide Inv;
  }

  lemma {:induction false} FlushingTurn(c: Config, s: State, p: Poll)
    requires Healthy(c, s) && s.phase.Flushing? && p.ready == Some(None)
    ensures var s' := Step(c, s, p);
            && s'.batch == [] && s'.flushed == s.flushed + [s.batch] && s'.failed.None? && s'.task.Running?
            && s'.running == s.running + 1 && s'.queue == s.queue && s'.answers == s.answers && s'.phase.Selecting?
  {
    FlushLeaves(s, s.phase.permit, None);
    FlushStarts(s, s.phase.permit);
    hide Inv, Flush;
  }

  lemma {:induction false} FlushStarts(s: State, permit: bool)
    ensures Flush(s, permit, None).running == s.running + 1 && Flush(s, permit, None).failed == s.failed
  {
  }

  /** A turn in the select of a healthy worker. */
  lemma {:induction false} SelectingTurn(c: Config, s: State, p: Poll)
    requires Healthy(c, s) && s.phase.Selecting? && ErrorFree(Turn(p)) && c.maxConcurrent >= 1
    ensures var s' := Step(c, s, p);
            if s.running > 0 && p.batchResult.Some? then s' == s.(running := s.running - 1)
            else if s.timer && p.timerElapsed then s' == s.(phase := Flushing(false))
            else if s.running < c.maxConcurrent && s.queue != [] then
              s' == s.(phase := Readying(s.queue[0]), queue := s.queue[1..])
            else if NothingToDo(c, s, p) then s'.task.Returned?
            else s' == s
  {
    assert !s.closed && ArmEnabled(c, s);
    hide Inv, Exit;
  }

  lemma {:induction false} PendingTurn(c: Config, s0: State, s: State, p: Poll)
    requires StillPending(c, s0, s) && ErrorFree(Turn(p)) && p.timerElapsed && !s.aborted
    ensures var s' := Step(c, s, p);
            if !Advances(s, Turn(p)) then StillPending(c, s0, s') && TurnsToFlush(c, s') == TurnsToFlush(c, s)
            else if TurnsToFlush(c, s) > 1 then
              StillPending(c, s0, s') && TurnsToFlush(c, s') == TurnsToFlush(c, s) - 1
            else WasFlushed(s0, s')
  {
    StepKeepsInv(c, s, p);
    assert s.phase.Selecting? ==> s.timer && c.maxConcurrent >= 1;
    match s.phase
    case Selecting =>
      SelectingTurn(c, s, p);
      hide Inv, Step;
    case Readying(_) =>
      if p.ready.Some? {
        ReadiedTurn(c, s, p);
        hide Inv, Step;
      }
    case Flushing(_) =>
      if p.ready.Some? {
        FlushingTurn(c, s, p);
        hide Inv, Step;
      }
  }

  lemma {:induction false} PendingStep(c: Config, s0: State, s: State, e: Event)
    requires StillPending(c, s0, s) && ErrorFree(e) && (e.Turn? ==> e.poll.timerElapsed)
    ensures var s' := Next(c, s, e);
            if !Advances(s, e) then StillPending(c, s0, s') && TurnsToFlush(c, s') == TurnsToFlush(c, s)
            else if TurnsToFlush(c, s) > 1 then
              StillPending(c, s0, s') && TurnsToFlush(c, s') == TurnsToFlush(c, s) - 1
            else WasFlushed(s0, s')
  {
    NextKeeps(c, s, e);
    match e
    case Turn(p) =>
      if !s.aborted {
        PendingTurn(c, s0, s, p);
      }
      hide Inv, Step;
    case Ask(client) =>
      PollReadyRecord(c, s, client);
      hide PollReady, Inv;
    case Send(client, weight) =>
      SendRecord(s, client, weight);
      hide Call, Inv;
  }

  /** Once its timer has elapsed, whatever the clients do, the pending batch of a healthy worker is flushed exactly with
    * the last of the advancing turns that it needs. Until then its items stay pending and no other batch is flushed. */
  lemma {:induction false} FlushesExactly(c: Config, s: State, es: seq<Event>)
    requires Healthy(c, s) && s.batch != []
    requires forall e :: e in es ==> ErrorFree(e) && (e.Turn? ==> e.poll.timerElapsed)
    ensures var s', turns := After(c, s, es), AdvancingTurns(c, s, es);
            if turns < TurnsToFlush(c, s)
            then StillPending(c, s, s') && TurnsToFlush(c, s') + turns == TurnsToFlush(c, s)
            else WasFlushed(s, s')
  {
    if es == [] {
    } else {
      var n := |es| - 1;
      FlushesExactly(c, s, es[..n]);
      RunGrows(c, s, es[..n]);
      var s1 := After(c, s, es[..n]);
      hide Next, Inv, StillPending, Advances, TurnsToFlush;
      if AdvancingTurns(c, s, es[..n]) < TurnsToFlush(c, s) {
        PendingStep(c, s, s1, es[n]);
      } else {
        NextKeeps(c, s1, es[n]);
      }
    }
  }

  /** In particular an elapsed timer and a ready service flush the batch in two turns. */
  lemma {:induction false} TimerFlushes(c: Config, s: State, p: Poll, q: Poll)
    requires Healthy(c, s) && s.phase.Selecting? && s.timer && p.timerElapsed && q.ready == Some(None)
    requires s.running == 0 || p.batchResult.None?
    ensures var s' := Step(c, Step(c, s, p), q);
            s'.flushed == s.flushed + [s.batch] && s'.batch == [] && s'.running == s.running + 1 && !s'.timer
  {
    assert c.maxConcurrent >= 1;
    hide Inv;
  }

  // -------------------------------------------------------------------------
  // When a request reaches the service.

  /** A turn that brings the first request closer to the service while no timer has elapsed: another batch may run, and
    * the turn is not used up by a finished one; or the service is ready for what the worker waits with. */
  predicate Serves(c: Config, s: State, e: Event) {
    && e.Turn? && s.task.Running? && !s.aborted
    && if s.phase.Selecting? then s.running < c.maxConcurrent && (s.running == 0 || e.poll.batchResult.None?)
       else e.poll.ready.Some?
  }

  /** The serving turns that the first request needs: one to be taken off the channel, one to be handed over, and one
    * before that if a full batch is waiting. */
  function TurnsToServe(s: State): nat {
    match s.phase
    case Selecting => 2
    case Readying(_) => 1
    case Flushing(_) => 3
  }

  ghost function ServingTurns(c: Config, s: State, es: seq<Event>): nat {
    if es == [] then 0
    else
      var n := |es| - 1;
      ServingTurns(c, s, es[..n]) + if Serves(c, After(c, s, es[..n]), es[n]) then 1 else 0
  }

  ghost predicate FirstWaits(c: Config, s: State, m: Message) {
    Healthy(c, s) && Upcoming(s) != [] && Upcoming(s)[0] == m
  }

  lemma {:induction false} ServeTurn(c: Config, s: State, m: Message, p: Poll)
    requires FirstWaits(c, s, m) && ErrorFree(Turn(p)) && !p.timerElapsed && c.maxConcurrent >= 1 && !s.aborted
    ensures var s' := Step(c, s, p);
            if !Serves(c, s, Turn(p)) then FirstWaits(c, s', m) && TurnsToServe(s') == TurnsToServe(s)
            else if TurnsToServe(s) > 1 then FirstWaits(c, s', m) && TurnsToServe(s') == TurnsToServe(s) - 1
            else WasCalled(s', m.id)
  {
    StepKeepsInv(c, s, p);
    match s.phase
    case Selecting =>
      SelectingTurn(c, s, p);
      hide Inv, Step;
    case Readying(_) =>
      if p.ready.Some? {
        ReadiedTurn(c, s, p);
        hide Inv, Step;
      }
    case Flushing(_) =>
      if p.ready.Some? {
        FlushingTurn(c, s, p);
        hide Inv, Step;
      }
  }

  lemma {:induction false} ServeStep(c: Config, s: State, m: Message, e: Event)
    requires FirstWaits(c, s, m) && ErrorFree(e) && (e.Turn? ==> !e.poll.timerElapsed) && c.maxConcurrent >= 1
    ensures var s' := Next(c, s, e);
            if !Serves(c, s, e) then FirstWaits(c, s', m) && TurnsToServe(s') == TurnsToServe(s)
            else if TurnsToServe(s) > 1 then FirstWaits(c, s', m) && TurnsToServe(s') == TurnsToServe(s) - 1
            else WasCalled(s', m.id)
  {
    NextKeeps(c, s, e);
    match e
    case Turn(p) =>
      if !s.aborted {
        ServeTurn(c, s, m, p);
      }
      hide Inv, Step;
    case Ask(client) =>
      PollReadyRecord(c, s, client);
      hide PollReady, Inv;
    case Send(client, weight) =>
      SendRecord(s, client, weight);
      hide Call, Inv;
  }

  /** While no timer elapses, whatever the clients do, the first request that waits for a healthy worker is handed to
    * the service exactly with the last of the serving turns that it needs. */
  lemma {:induction false} ServesExactly(c: Config, s: State, es: seq<Event>)
    requires Healthy(c, s) && Upcoming(s) != [] && c.maxConcurrent >= 1
    requires forall e :: e in es ==> ErrorFree(e) && (e.Turn? ==> !e.poll.timerElapsed)
    ensures var s', m, turns := After(c, s, es), Upcoming(s)[0], ServingTurns(c, s, es);
            && (WasCalled(s', m.id) <==> turns >= TurnsToServe(s))
            && (turns < TurnsToServe(s) ==> FirstWaits(c, s', m) && TurnsToServe(s') + turns == TurnsToServe(s))
  {
    var m := Upcoming(s)[0];
    if es == [] {
      FirstNotCalled(c, s, m);
    } else {
      var n := |es| - 1;
      ServesExactly(c, s, es[..n]);
      RunGrows(c, s, es[..n]);
      var s1 := After(c, s, es[..n]);
      hide Next, Inv, FirstWaits, Serves, TurnsToServe, Upcoming, WasCalled;
      if ServingTurns(c, s, es[..n]) < TurnsToServe(s) {
        ServeStep(c, s1, m, es[n]);
        if ServingTurns(c, s, es) < TurnsToServe(s) {
          FirstNotCalled(c, After(c, s, es), m);
        }
      } else {
        NextKeeps(c, s1, es[n]);
        CalledStays(s1, After(c, s, es), m.id);
      }
    }
  }

  lemma {:induction false} FirstNotCalled(c: Config, s: State, m: Message)
    requires FirstWaits(c, s, m)
    ensures !WasCalled(s, m.id)
  {
    assert InFlight(s, Upcoming(s)[0]);
  }

  lemma {:induction false} CalledStays(s: State, s': State, id: nat)
    requires Grows(s, s') && WasCalled(s, id)
    ensures WasCalled(s', id)
  {
    assert !ResponseOf(s, id).Waiting?;
  }
}
