/** The request batcher as a state machine: the worker's select loop from one await point to the next, its clients and
  * their shared channel. */
module Batching {
  import opened Options

  datatype Message = Message(id: nat, weight: nat)

  datatype Error = ServiceFailed(code: nat) | Closed | TaskCancelled

  /** What the worker tells a request: the wrapped service was called, or the worker has failed. */
  datatype Answer = Called | Failed(error: Error)

  const QUEUE_BATCH_LIMIT: nat := 64

  /** The limits of a batcher, and whether its clients watch the handle of the worker task. */
  datatype Config = Config(maxItems: nat, maxConcurrent: nat, permits: nat, registered: bool)

  lemma {:induction false} TimesBetween(a: nat, b: nat, most: nat)
    requires 1 <= b <= most
    ensures a <= a * b <= a * most
  {
    assert a * b == a + a * (b - 1) && a * most == a * b + a * (most - b);
  }

  /** The limits that a batcher is created with. The number of concurrent batches is not clamped; the
    * semaphore has room for that many batches, but for at least one and at most 64. */
  function Clamped(maxItems: nat, maxBatches: nat, registered: bool): (c: Config)
    ensures c.permits >= c.maxItems && c.maxConcurrent == maxBatches && c.registered == registered
    ensures if maxItems == 0 then c.maxItems == 1 else c.maxItems == maxItems
    ensures maxBatches == 0 ==> c.permits == c.maxItems
    ensures c.permits <= c.maxItems * QUEUE_BATCH_LIMIT
    ensures 1 <= maxBatches <= QUEUE_BATCH_LIMIT ==> c.permits == c.maxItems * maxBatches
    ensures maxBatches >= QUEUE_BATCH_LIMIT ==> c.permits == c.maxItems * QUEUE_BATCH_LIMIT
  {
    var items := if maxItems < 1 then 1 else maxItems;
    var inQueue :=
      if maxBatches < 1 then 1 else if maxBatches > QUEUE_BATCH_LIMIT then QUEUE_BATCH_LIMIT else maxBatches;
    TimesBetween(items, inQueue, QUEUE_BATCH_LIMIT);
    Config(items, maxBatches, items * inQueue, registered)
  }

  /** The worker task runs, has returned, or was cancelled. */
  datatype Task = Running | Returned | Cancelled

  /** Where a running worker waits: in its select, for the service to get ready for a request it has taken off the
    * channel, or for the service to get ready for a flush. In the last case it may hold the permit of a request that it
    * has answered. */
  datatype Phase = Selecting | Readying(message: Message) | Flushing(permit: bool)

  /** The channel and its semaphore, the shared error, whether the result of the worker task was taken from its handle,
    * whether the process was aborted by a panic, the worker, and a record of what happened: the items of the pending
    * batch, the batches flushed, the requests sent, the answers given, and the request that was dropped unanswered. */
  datatype State = State(
    queue: seq<Message>, closed: bool, available: nat, semaphoreClosed: bool, holders: set<nat>,
    sharedError: Option<Error>, joined: bool, aborted: bool,
    failed: Option<Error>, pending: nat, timer: bool, running: nat, task: Task, phase: Phase,
    nextId: nat, batch: seq<Message>, flushed: seq<seq<Message>>, sent: map<nat, Message>, answers: map<nat, Answer>,
    abandoned: Option<nat>)

  function Initial(c: Config): State {
    State([], false, c.permits, false, {}, None, false, false, None, 0, false, 0, Running, Selecting,
          0, [], [], map[], map[], None)
  }

  // -------------------------------------------------------------------------
  // The worker.

  /** What the worker finds when it is polled: a finished batch, an elapsed timer, no senders left, and whether the
    * wrapped service is ready or fails. */
  datatype Poll = Poll(batchResult: Option<Option<Error>>, timerElapsed: bool, sendersGone: bool,
                       ready: Option<Option<Error>>)

  function Fail(s: State, e: Error): State {
    if s.sharedError.Some? then s
    else s.(sharedError := Some(e), closed := true, semaphoreClosed := true, timer := false, failed := Some(e))
  }

  function Reply(s: State, m: Message, a: Answer): State {
    s.(answers := s.answers[m.id := a])
  }

  /** A message has been handled: its permit is released and the worker goes back to its select. */
  function Handled(s: State): State {
    s.(phase := Selecting, available := s.available + 1)
  }

  /** What follows a processed request: a full batch is flushed, and a new one gets its timer. */
  function Settle(c: Config, s: State, isNew: bool): State {
    if s.pending >= c.maxItems then if s.failed.Some? then Handled(s) else s.(phase := Flushing(true))
    else if isNew then Handled(s.(timer := true))
    else Handled(s)
  }

  /** Takes a message off the channel. A failed worker answers it at once. */
  function Receive(c: Config, s: State): State
    requires s.queue != []
  {
    var m, s0 := s.queue[0], s.(queue := s.queue[1..]);
    if s.failed.Some? then Settle(c, Reply(s0, m, Failed(s.failed.value)), s.pending == 0)
    else s0.(phase := Readying(m))
  }

  /** The service is ready for the request `m`, which is handed to it, or it has failed. */
  function Process(s: State, m: Message, serviceError: Option<Error>): State {
    match serviceError
    case None => Reply(s.(pending := s.pending + m.weight, batch := s.batch + [m]), m, Called)
    case Some(e) =>
      var s' := Fail(s, e);
      Reply(s', m, Failed(s'.failed.GetOr(e)))
  }

  /** The service is ready for a flush, or it has failed. */
  function FlushBatch(s: State, serviceError: Option<Error>): State {
    match serviceError
    case None =>
      s.(running := s.running + 1, pending := 0, timer := false, batch := [], flushed := s.flushed + [s.batch])
    case Some(e) => Fail(s, e)
  }

  function Flush(s: State, permit: bool, serviceError: Option<Error>): State {
    var s' := FlushBatch(s, serviceError);
    if permit then Handled(s') else s'.(phase := Selecting)
  }

  /** The timer has elapsed. A failed worker does not flush. */
  function TimeOut(s: State): State {
    if s.failed.Some? then s else s.(phase := Flushing(false))
  }

  /** Answers for a list of messages. */
  ghost function RepliedAll(answers: map<nat, Answer>, ms: seq<Message>, a: Answer): map<nat, Answer> {
    if ms == [] then answers else RepliedAll(answers, ms[..|ms| - 1], a)[ms[|ms| - 1].id := a]
  }

  /** The permits that travel with what the worker is handling. */
  function HeldPermits(s: State): nat {
    if s.phase.Readying? || (s.phase.Flushing? && s.phase.permit) then 1 else 0
  }

  /** What the worker is handling is dropped where it waits: a request that it has taken off the channel and not
    * processed is left unanswered. */
  function DropHeld(s: State): State {
    s.(available := s.available + HeldPermits(s), phase := Selecting,
       abandoned := if s.phase.Readying? then Some(s.phase.message.id) else s.abandoned)
  }

  /** The worker goes away: it fails if it has not yet, and fails every queued request. */
  ghost function Exit(s: State, task: Task): State {
    var s' := Fail(DropHeld(s), Closed);
    s'.(queue := [], available := s'.available + |s.queue|, task := task,
        answers := RepliedAll(s.answers, s.queue, Failed(s'.failed.GetOr(Closed))))
  }

  /** A running batch ends, and the worker fails with it. */
  function FinishBatch(s: State, error: Option<Error>): State
    requires s.running > 0
  {
    var s' := s.(running := s.running - 1);
    if error.Some? then Fail(s', error.value) else s'
  }

  /** Some arm of the select is enabled, whether or not it is ready. */
  predicate ArmEnabled(c: Config, s: State) {
    s.running > 0 || s.timer || s.running < c.maxConcurrent
  }

  /** The select: finished batches first, then the timer, then messages if another batch may run. The loop ends when the
    * channel is closed and empty. A select with every arm disabled panics. */
  ghost function Select(c: Config, s: State, p: Poll): State {
    if !ArmEnabled(c, s) then s.(aborted := true)
    else if s.running > 0 && p.batchResult.Some? then FinishBatch(s, p.batchResult.value)
    else if s.timer && p.timerElapsed then TimeOut(s)
    else if s.running < c.maxConcurrent && s.queue != [] then Receive(c, s)
    else if s.running < c.maxConcurrent && (s.closed || p.sendersGone) then Exit(s, Returned)
    else s
  }

  /** One poll of the worker, up to its next await point. */
  ghost function Step(c: Config, s: State, p: Poll): State {
    if !s.task.Running? then s
    else match s.phase
      case Selecting => Select(c, s, p)
      case Readying(m) =>
        if p.ready.None? then s else Settle(c, Process(s, m, p.ready.value), s.pending == 0)
      case Flushing(permit) =>
        if p.ready.None? then s else Flush(s, permit, p.ready.value)
  }

  // -------------------------------------------------------------------------
  // The clients.

  datatype Readiness = Pending | Ready | NotReady(error: Error) | Panicked

  /** The error that clients see once the channel is closed. */
  function ErrorOnClosed(s: State): Error {
    s.sharedError.GetOr(Closed)
  }

  function Release(s: State, client: nat): State {
    if client in s.holders then s.(holders := s.holders - {client}, available := s.available + 1) else s
  }

  /** A client asks for a permit, giving up the one it may hold. If the handle of the worker task is watched, a gone
    * worker is reported once; polling the handle after that panics. */
  function PollReady(c: Config, s: State, client: nat): (State, Readiness) {
    if c.registered && !s.task.Running? then
      if s.joined then (s.(aborted := true), Panicked)
      else (s.(joined := true), NotReady(if s.task.Cancelled? then TaskCancelled else ErrorOnClosed(s)))
    else if s.closed then (s, NotReady(ErrorOnClosed(s)))
    else
      var s' := Release(s, client);
      if s'.semaphoreClosed then (s', NotReady(ErrorOnClosed(s)))
      else if s'.available > 0 then (s'.(available := s'.available - 1, holders := s'.holders + {client}), Ready)
      else (s', Pending)
  }

  datatype Outcome = Panic | SendFailed(error: Error) | Sent(id: nat)

  /** A client with a permit sends a request. Without one it panics. */
  function Call(s: State, client: nat, weight: nat): (State, Outcome) {
    if client !in s.holders then (s.(aborted := true), Panic)
    else if s.closed then (Release(s, client), SendFailed(ErrorOnClosed(s)))
    else
      var m := Message(s.nextId, weight);
      (s.(holders := s.holders - {client}, queue := s.queue + [m], sent := s.sent[m.id := m], nextId := s.nextId + 1),
       Sent(m.id))
  }

  /** What a client learns about its request: nothing yet, the worker's answer, or that the sender of the answer was
    * dropped, which it sees as a closed worker. */
  datatype Response = Waiting | Answered(answer: Answer) | SenderDropped

  function ResponseOf(s: State, id: nat): Response {
    if id in s.answers then Answered(s.answers[id])
    else if s.abandoned == Some(id) then SenderDropped
    else Waiting
  }

  // -------------------------------------------------------------------------
  // What every state keeps.

  ghost function Weight(ms: seq<Message>): nat {
    if ms == [] then 0 else Weight(ms[..|ms| - 1]) + ms[|ms| - 1].weight
  }

  /** The requests that the worker has yet to process: the one in hand, and the queued ones. */
  function Upcoming(s: State): seq<Message> {
    if s.phase.Readying? then [s.phase.message] + s.queue else s.queue
  }

  /** At most the allowed number of batches runs. The timer is only set, and a request or a flush only waits for the
    * service, while another one may start, so the unguarded flush of the timer arm stays within the limit. */
  ghost predicate Bounded(c: Config, s: State) {
    s.running <= c.maxConcurrent && (s.timer || !s.phase.Selecting? ==> s.running < c.maxConcurrent)
  }

  /** The pending weight is that of the pending items. Until a failure it is below the limit unless the full batch waits
    * to be flushed, and below the limit there is a timer exactly if there are pending items. After a failure nothing
    * waits for the service, and a timer is only set while no weight is pending. */
  ghost predicate Timed(c: Config, s: State) {
    && s.pending == Weight(s.batch)
    && (s.failed.None? ==>
          && (s.phase != Flushing(true) ==> s.pending < c.maxItems && (s.batch != [] ==> s.timer))
          && (s.timer ==> s.batch != [])
          && (s.phase.Flushing? ==> Fits(c, s.batch)))
    && (s.failed.Some? ==> s.phase.Selecting? && (s.timer ==> s.pending == 0))
  }

  /** A batch without its last item weighs less than the limit. */
  ghost predicate Fits(c: Config, batch: seq<Message>) {
    batch != [] && Weight(batch[..|batch| - 1]) < c.maxItems
  }

  /** The shared error is the worker's own, and the channel is closed exactly when there is one. */
  ghost predicate ErrorsAgree(s: State) {
    s.sharedError == s.failed && (s.closed <==> s.failed.Some?) && s.semaphoreClosed == s.closed
  }

  /** Every request sent is in exactly one place: in hand or queued once, answered, or dropped unanswered. */
  ghost predicate Accounted(s: State) {
    && (forall i :: 0 <= i < |Upcoming(s)| ==> InFlight(s, Upcoming(s)[i]))
    && (forall i, j :: 0 <= i < j < |Upcoming(s)| ==> Upcoming(s)[i].id != Upcoming(s)[j].id)
    && (forall id :: id in s.answers ==> id in s.sent)
    && (forall id :: id in s.sent ==> id < s.nextId && s.sent[id].id == id)
    && (s.abandoned.Some? ==> s.abandoned.value in s.sent && s.abandoned.value !in s.answers)
    && (forall id :: id in s.sent && ResponseOf(s, id).Waiting? ==> s.sent[id] in Upcoming(s))
  }

  ghost predicate InFlight(s: State, m: Message) {
    m.id in s.sent && s.sent[m.id] == m && ResponseOf(s, m.id).Waiting?
  }

  /** Permits are never lost: each is available, held by a client, or travels with a request. */
  ghost predicate PermitsKept(c: Config, s: State) {
    s.available + |s.holders| + |s.queue| + HeldPermits(s) == c.permits
  }

  /** A worker that is gone has closed and emptied its channel. Only a cancelled one drops a request. */
  ghost predicate GoneIsClosed(s: State) {
    && (!s.task.Running? ==> s.closed && Upcoming(s) == [])
    && (s.abandoned.Some? ==> s.task.Cancelled?) && (s.joined ==> !s.task.Running?)
  }

  ghost predicate Inv(c: Config, s: State) {
    && c.maxItems >= 1
    && Bounded(c, s) && Timed(c, s) && ErrorsAgree(s) && Accounted(s) && PermitsKept(c, s) && GoneIsClosed(s)
    && (forall i :: 0 <= i < |s.flushed| ==> Fits(c, s.flushed[i]))
  }

  lemma {:induction false} InitialInv(c: Config)
    requires c.maxItems >= 1
    ensures Inv(c, Initial(c))
  {
  }

  lemma {:induction false} WeightAppend(ms: seq<Message>, m: Message)
    ensures Weight(ms + [m]) == Weight(ms) + m.weight
  {
    assert (ms + [m])[..|ms|] == ms;
  }

  /** Accounting depends on the upcoming requests and the record only. */
  lemma {:induction false} SameAccounts(s: State, s': State)
    requires Accounted(s) && Upcoming(s') == Upcoming(s)
    requires s'.sent == s.sent && s'.answers == s.answers && s'.nextId == s.nextId && s'.abandoned == s.abandoned
    ensures Accounted(s')
  {
    hide Upcoming;
    forall i | 0 <= i < |Upcoming(s')| ensures InFlight(s', Upcoming(s')[i]) {
      assert InFlight(s, Upcoming(s)[i]);
    }
    forall id | id in s'.sent && ResponseOf(s', id).Waiting? ensures s'.sent[id] in Upcoming(s') {
      assert ResponseOf(s, id).Waiting?;
    }
  }

  /** Answering the first upcoming request keeps all requests accounted for. */
  lemma {:induction false} AnswerFirst(s: State, s': State, a: Answer)
    requires Accounted(s) && Upcoming(s) != [] && Upcoming(s') == Upcoming(s)[1..]
    requires s'.answers == s.answers[Upcoming(s)[0].id := a]
    requires s'.sent == s.sent && s'.nextId == s.nextId && s'.abandoned == s.abandoned
    ensures Accounted(s') && Upcoming(s)[0].id !in s.answers
  {
    hide Upcoming;
    var u, u' := Upcoming(s), Upcoming(s');
    assert InFlight(s, u[0]);
    forall i | 0 <= i < |u'| ensures InFlight(s', u'[i]) {
      assert u'[i] == u[i + 1];
      assert InFlight(s, u[i + 1]);
    }
    forall id | id in s'.sent && ResponseOf(s', id).Waiting? ensures s'.sent[id] in u' {
      assert ResponseOf(s, id).Waiting?;
      var k :| 0 <= k < |u| && u[k] == s.sent[id];
      assert k > 0 && u'[k - 1] == s.sent[id];
    }
  }

  lemma {:induction false} FailKeepsInv(c: Config, s: State, e: Error)
    requires Inv(c, s) && s.phase.Selecting?
    ensures Inv(c, Fail(s, e)) && Fail(s, e).failed.Some?
  {
    SameAccounts(s, Fail(s, e));
    hide Accounted, Weight, Fits;
  }

  /** The state in which a request has been processed, with its permit still to be released. */
  ghost predicate Processed(c: Config, s: State) {
    && c.maxItems >= 1 && s.task.Running? && s.running < c.maxConcurrent && s.abandoned.None? && !s.joined
    && ErrorsAgree(s) && s.pending == Weight(s.batch)
    && (s.failed.None? ==> Fits(c, s.batch) && s.batch != [])
    && s.available + |s.holders| + |s.queue| + 1 == c.permits
    && (forall i :: 0 <= i < |s.flushed| ==> Fits(c, s.flushed[i]))
  }

  /** Going on after a processed request keeps the invariant. `settled` is the state that follows. */
  lemma {:induction false} SettleKeeps(c: Config, s: State, isNew: bool, s': State)
    requires Processed(c, s) && (s.failed.None? && !isNew ==> s.timer)
    requires s.failed.Some? && (s.timer || isNew) ==> s.pending == 0
    requires s' == Settle(c, s, isNew) && Accounted(s')
    ensures Inv(c, s')
  {
    hide Accounted, Fits, Weight;
  }

  lemma {:induction false} ReceiveKeepsInv(c: Config, s: State)
    requires Inv(c, s) && s.task.Running? && s.phase.Selecting? && s.queue != [] && s.running < c.maxConcurrent
    ensures Inv(c, Receive(c, s))
  {
    hide Inv, Receive;
    if s.failed.Some? {
      RefuseKeepsInv(c, s);
    } else {
      TakeKeepsInv(c, s);
    }
  }

  lemma {:induction false} TakeKeepsInv(c: Config, s: State)
    requires Inv(c, s) && s.task.Running? && s.phase.Selecting? && s.queue != [] && s.running < c.maxConcurrent
    requires s.failed.None?
    ensures Inv(c, Receive(c, s))
  {
    var s' := s.(queue := s.queue[1..], phase := Readying(s.queue[0]));
    assert Receive(c, s) == s';
    TakeAccounted(s);
    hide Receive, Accounted, Weight, Fits, Upcoming;
  }

  lemma {:induction false} TakeAccounted(s: State)
    requires Accounted(s) && s.queue != [] && s.phase.Selecting?
    ensures Accounted(s.(queue := s.queue[1..], phase := Readying(s.queue[0])))
  {
    var s' := s.(queue := s.queue[1..], phase := Readying(s.queue[0]));
    assert Upcoming(s') == Upcoming(s);
    hide Accounted;
    SameAccounts(s, s');
  }

  lemma {:induction false} RefuseKeepsInv(c: Config, s: State)
    requires Inv(c, s) && s.task.Running? && s.phase.Selecting? && s.queue != [] && s.running < c.maxConcurrent
    requires s.failed.Some?
    ensures Inv(c, Receive(c, s))
  {
    var s1 := Reply(s.(queue := s.queue[1..]), s.queue[0], Failed(s.failed.value));
    assert Processed(c, s1) by {
      hide Accounted, Weight, Fits;
    }
    assert s.timer ==> s.pending == 0;
    AnswerFirst(s, Receive(c, s), Failed(s.failed.value));
    hide Inv, Accounted, Processed;
    SettleKeeps(c, s1, s.pending == 0, Receive(c, s));
  }

  lemma {:induction false} ProcessKeepsInv(c: Config, s: State, e: Option<Error>)
    requires Inv(c, s) && s.task.Running? && s.phase.Readying?
    ensures Inv(c, Settle(c, Process(s, s.phase.message, e), s.pending == 0))
  {
    var m := s.phase.message;
    var s1 := Process(s, m, e);
    var s' := Settle(c, s1, s.pending == 0);
    assert Upcoming(s) == [m] + s.queue && Upcoming(s') == s.queue;
    AnswerFirst(s, s', if e.None? then Called else Failed(e.value));
    ProcessReceived(c, s, e);
    hide Inv, Process, Processed;
    SettleKeeps(c, s1, s.pending == 0, s');
  }

  lemma {:induction false} ProcessReceived(c: Config, s: State, e: Option<Error>)
    requires Inv(c, s) && s.task.Running? && s.phase.Readying?
    ensures var s1 := Process(s, s.phase.message, e);
            && Processed(c, s1) && (s1.failed.None? && s.pending > 0 ==> s1.timer)
            && (s1.failed.Some? ==> s1.pending == s.pending && !s1.timer)
  {
    hide Inv, Process, Processed;
    if e.None? {
      ProcessCalled(c, s);
    } else {
      ProcessFailed(c, s, e.value);
    }
  }

  lemma {:induction false} ProcessCalled(c: Config, s: State)
    requires Inv(c, s) && s.task.Running? && s.phase.Readying?
    ensures var s1 := Process(s, s.phase.message, None);
            Processed(c, s1) && s1.failed.None? && (s.pending > 0 ==> s1.timer)
  {
    var m := s.phase.message;
    WeightAppend(s.batch, m);
    assert (s.batch + [m])[..|s.batch|] == s.batch;
    assert s.failed.None? && !s.joined && s.abandoned.None? && HeldPermits(s) == 1;
    assert s.pending > 0 ==> s.timer;
    hide Accounted, Weight, Upcoming;
  }

  lemma {:induction false} ProcessFailed(c: Config, s: State, e: Error)
    requires Inv(c, s) && s.task.Running? && s.phase.Readying?
    ensures var s1 := Process(s, s.phase.message, Some(e));
            Processed(c, s1) && s1.failed.Some? && s1.pending == s.pending && !s1.timer
  {
    assert s.failed.None? && !s.joined && s.abandoned.None? && HeldPermits(s) == 1;
    hide Accounted, Weight, Upcoming, Fits;
  }

  /** Flushing a batch that waits for it. */
  lemma {:induction false} FlushKeepsInv(c: Config, s: State, e: Option<Error>)
    requires Inv(c, s) && s.task.Running? && s.phase.Flushing?
    ensures Inv(c, Flush(s, s.phase.permit, e))
  {
    SameAccounts(s, Flush(s, s.phase.permit, e));
    hide Accounted, Fits;
  }

  lemma {:induction false} TimeOutKeepsInv(c: Config, s: State)
    requires Inv(c, s) && s.task.Running? && s.phase.Selecting? && s.timer
    ensures Inv(c, TimeOut(s))
  {
    if s.failed.None? {
      LightBatchFits(c, s.batch);
      SameAccounts(s, TimeOut(s));
      hide Accounted, Weight, Fits;
    }
  }

  lemma {:induction false} LightBatchFits(c: Config, batch: seq<Message>)
    requires batch != [] && Weight(batch) < c.maxItems
    ensures Fits(c, batch)
  {
  }

  lemma {:induction false} FinishKeepsInv(c: Config, s: State, e: Option<Error>)
    requires Inv(c, s) && s.running > 0 && s.phase.Selecting?
    ensures Inv(c, FinishBatch(s, e))
  {
    var s' := s.(running := s.running - 1);
    SameAccounts(s, s');
    assert Inv(c, s') by {
      hide Accounted, Weight, Fits;
    }
    if e.Some? {
      FailKeepsInv(c, s', e.value);
    }
  }

  /** A panic changes nothing else. */
  lemma {:induction false} AbortKeepsInv(c: Config, s: State, joined: bool)
    requires Inv(c, s) && (joined ==> !s.task.Running?)
    ensures Inv(c, s.(aborted := true)) && Inv(c, s.(joined := joined))
  {
    SameAccounts(s, s.(aborted := true));
    SameAccounts(s, s.(joined := joined));
    hide Accounted, Weight, Fits;
  }

  ghost predicate HasId(ms: seq<Message>, id: nat) {
    exists i :: 0 <= i < |ms| && ms[i].id == id
  }

  lemma {:induction false} HasIdLast(ms: seq<Message>, id: nat)
    requires ms != []
    ensures HasId(ms, id) <==> id == ms[|ms| - 1].id || HasId(ms[..|ms| - 1], id)
  {
    var init := ms[..|ms| - 1];
    if i :| 0 <= i < |init| && init[i].id == id {
      assert ms[i].id == id;
    }
    if i :| 0 <= i < |ms| && ms[i].id == id {
      if i < |init| { assert init[i].id == id; }
    }
  }

  lemma {:induction false} RepliedAllEffect(answers: map<nat, Answer>, ms: seq<Message>, a: Answer, id: nat)
    ensures var r := RepliedAll(answers, ms, a);
            && (id in r <==> id in answers || HasId(ms, id))
            && (id in r ==> r[id] == if HasId(ms, id) then a else answers[id])
  {
    if ms == [] {
    } else {
      RepliedAllEffect(answers, ms[..|ms| - 1], a, id);
      HasIdLast(ms, id);
    }
  }

  /** The error that a worker which goes away answers with. */
  ghost function LastError(s: State): Error {
    Fail(s, Closed).failed.GetOr(Closed)
  }

  /** When the worker goes away every request has an answer, but for the one in hand. */
  lemma {:induction false} ExitAccounts(s: State, task: Task)
    requires Accounted(s) && s.abandoned.None?
    ensures var s' := Exit(s, task);
            && Accounted(s') && Upcoming(s') == []
            && forall id :: id in s'.sent ==> !ResponseOf(s', id).Waiting?
  {
    ExitLeaves(s, task);
    hide Exit, LastError;
    var s', a := Exit(s, task), Failed(LastError(s));
    forall id | id in s'.answers ensures id in s'.sent && s'.abandoned != Some(id) {
      RepliedAllEffect(s.answers, s.queue, a, id);
      if id !in s.answers {
        var i :| 0 <= i < |s.queue| && s.queue[i].id == id;
        QueuedInFlight(s, i);
      } else if s.phase.Readying? {
        assert InFlight(s, Upcoming(s)[0]);
      }
    }
    forall id | id in s'.sent ensures !ResponseOf(s', id).Waiting? {
      RepliedAllEffect(s.answers, s.queue, a, id);
      if id !in s.answers && s'.abandoned != Some(id) {
        assert s.sent[id] in Upcoming(s);
        var i :| 0 <= i < |s.queue| && s.queue[i] == s.sent[id];
        assert s.queue[i].id == id;
      }
    }
    if s.phase.Readying? {
      assert InFlight(s, Upcoming(s)[0]);
    }
  }

  /** A queued request is in flight and is not the one in hand. */
  lemma {:induction false} QueuedInFlight(s: State, i: nat)
    requires Accounted(s) && i < |s.queue|
    ensures InFlight(s, s.queue[i])
    ensures s.phase.Readying? ==> s.phase.message.id != s.queue[i].id
  {
    var k := if s.phase.Readying? then i + 1 else i;
    assert Upcoming(s)[k] == s.queue[i] && InFlight(s, Upcoming(s)[k]);
    if s.phase.Readying? {
      assert Upcoming(s)[0].id != Upcoming(s)[k].id;
    }
  }

  lemma {:induction false} ExitKeepsInv(c: Config, s: State, task: Task)
    requires Inv(c, s) && s.task.Running? && (task.Cancelled? || (task.Returned? && s.phase.Selecting?))
    ensures Inv(c, Exit(s, task))
    ensures forall id :: id in Exit(s, task).sent ==> !ResponseOf(Exit(s, task), id).Waiting?
  {
    assert s.abandoned.None?;
    ExitAccounts(s, task);
    hide Accounted, Weight, Fits, RepliedAll, ResponseOf;
  }

  /** Every poll of the worker keeps the invariant. */
  lemma {:induction false} StepKeepsInv(c: Config, s: State, p: Poll)
    requires Inv(c, s)
    ensures Inv(c, Step(c, s, p))
  {
    hide Inv, Select, Settle, Process, Flush;
    if !s.task.Running? {
    } else {
      match s.phase
      case Selecting =>
        SelectKeepsInv(c, s, p);
      case Readying(m) =>
        if p.ready.Some? {
          ProcessKeepsInv(c, s, p.ready.value);
        }
      case Flushing(permit) =>
        if p.ready.Some? {
          FlushKeepsInv(c, s, p.ready.value);
        }
    }
  }

  lemma {:induction false} SelectKeepsInv(c: Config, s: State, p: Poll)
    requires Inv(c, s) && s.task.Running? && s.phase.Selecting?
    ensures Inv(c, Select(c, s, p))
  {
    hide Inv, Receive, Exit, FinishBatch, TimeOut;
    if !ArmEnabled(c, s) {
      AbortKeepsInv(c, s, false);
    } else if s.running > 0 && p.batchResult.Some? {
      FinishKeepsInv(c, s, p.batchResult.value);
    } else if s.timer && p.timerElapsed {
      TimeOutKeepsInv(c, s);
    } else if s.running < c.maxConcurrent && s.queue != [] {
      ReceiveKeepsInv(c, s);
    } else if s.running < c.maxConcurrent && (s.closed || p.sendersGone) {
      ExitKeepsInv(c, s, Returned);
    }
  }

  lemma {:induction false} ReleaseKeeps(c: Config, s: State, client: nat)
    requires PermitsKept(c, s)
    ensures PermitsKept(c, Release(s, client)) && client !in Release(s, client).holders
  {
  }

  /** Moving permits between the semaphore and clients affects nothing else. */
  lemma {:induction false} PermitsMove(c: Config, s: State, available: nat, holders: set<nat>)
    requires Inv(c, s) && available + |holders| == s.available + |s.holders|
    ensures Inv(c, s.(available := available, holders := holders))
  {
    SameAccounts(s, s.(available := available, holders := holders));
    hide Accounted, Weight, Fits;
  }

  lemma {:induction false} ReleaseKeepsInv(c: Config, s: State, client: nat)
    requires Inv(c, s)
    ensures Inv(c, Release(s, client)) && client !in Release(s, client).holders
  {
    ReleaseKeeps(c, s, client);
    PermitsMove(c, s, Release(s, client).available, Release(s, client).holders);
  }

  lemma {:induction false} PollReadyKeepsInv(c: Config, s: State, client: nat)
    requires Inv(c, s)
    ensures Inv(c, PollReady(c, s, client).0)
    ensures PollReady(c, s, client).1.Ready? <==> client in PollReady(c, s, client).0.holders && !s.closed
    ensures PollReady(c, s, client).1.Panicked? <==> c.registered && s.joined
    ensures PollReady(c, s, client).1.NotReady? ==>
              if c.registered && s.task.Cancelled? then PollReady(c, s, client).1.error == TaskCancelled
              else s.failed == Some(PollReady(c, s, client).1.error)
  {
    assert ErrorsAgree(s) && GoneIsClosed(s);
    hide Inv;
    var released := Release(s, client);
    ReleaseKeepsInv(c, s, client);
    AbortKeepsInv(c, s, !s.task.Running?);
    if !s.closed && released.available > 0 {
      assert released.holders + {client} - {client} == released.holders;
      PermitsMove(c, released, released.available - 1, released.holders + {client});
    }
  }

  /** A client gets a permit exactly if the channel is open and one is free or its own, and waits if it is open and
    * none is. No other client's permit is touched. */
  lemma {:induction false} PollReadyExact(c: Config, s: State, client: nat)
    requires Inv(c, s)
    ensures var (s', r) := PollReady(c, s, client);
            && (r.Ready? <==> !s.closed && (s.available > 0 || client in s.holders))
            && (r.Pending? <==> !s.closed && s.available == 0 && client !in s.holders)
            && s'.holders == (if r.Ready? then s.holders + {client} else s.holders)
            && s'.available == s.available - if r.Ready? && client !in s.holders then 1 else 0
  {
    assert ErrorsAgree(s) && GoneIsClosed(s);
    hide Inv;
    assert client in s.holders ==> s.holders - {client} + {client} == s.holders;
  }

  /** Exactly with a permit and an open channel a request is queued, last and with its own weight, under a new number.
    * The permit is used up. */
  lemma {:induction false} CallExact(c: Config, s: State, client: nat, weight: nat)
    requires Inv(c, s)
    ensures var (s', r) := Call(s, client, weight);
            && (r.Sent? <==> client in s.holders && !s.closed) && (r.Panic? <==> client !in s.holders)
            && (r.Sent? ==>
                  var m := Message(r.id, weight);
                  m.id !in s.sent && s'.sent == s.sent[m.id := m] && s'.queue == s.queue + [m])
            && (!r.Sent? ==> s'.sent == s.sent && s'.queue == s.queue) && s'.holders == s.holders - {client}
  {
    assert Accounted(s);
    hide Inv;
  }

  lemma {:induction false} CallKeepsInv(c: Config, s: State, client: nat, weight: nat)
    requires Inv(c, s)
    ensures Inv(c, Call(s, client, weight).0)
    ensures Call(s, client, weight).1.SendFailed? ==> s.failed == Some(Call(s, client, weight).1.error)
  {
    if client !in s.holders {
      AbortKeepsInv(c, s, false);
      hide Inv;
    } else if !s.closed {
      SendAccounted(s, client, weight);
      assert |s.holders - {client}| == |s.holders| - 1;
      hide Accounted, Weight, Fits;
    } else {
      assert ErrorsAgree(s);
      hide Inv;
      ReleaseKeepsInv(c, s, client);
    }
  }

  lemma {:induction false} SendAccounted(s: State, client: nat, weight: nat)
    requires Accounted(s) && client in s.holders && !s.closed
    ensures Accounted(Call(s, client, weight).0)
  {
    var s' := Call(s, client, weight).0;
    var m := Message(s.nextId, weight);
    var u, u' := Upcoming(s), Upcoming(s');
    assert u' == u + [m];
    hide Upcoming;
    forall i | 0 <= i < |u'| ensures InFlight(s', u'[i]) {
      if i < |u| {
        assert InFlight(s, u[i]);
      }
    }
    forall i, j | 0 <= i < j < |u'| ensures u'[i].id != u'[j].id {
      assert InFlight(s, u[i]);
    }
    forall id | id in s'.sent && ResponseOf(s', id).Waiting? ensures s'.sent[id] in u' {
      if id == m.id {
        assert u'[|u|] == m;
      } else {
        assert ResponseOf(s, id).Waiting?;
        var k :| 0 <= k < |u| && u[k] == s.sent[id];
        assert u'[k] == s.sent[id];
      }
    }
  }

  // -------------------------------------------------------------------------
  // What the parts of a poll leave alone.

  /** The life of the task and the process goes on. */
  ghost predicate LivesOn(s: State, s': State) {
    s'.task == s.task && s'.aborted == s.aborted && s'.joined == s.joined && s'.abandoned == s.abandoned
  }

  ghost predicate SameRecord(s: State, s': State) {
    && s'.queue == s.queue && s'.nextId == s.nextId && s'.batch == s.batch && s'.flushed == s.flushed
    && s'.sent == s.sent && s'.answers == s.answers
  }

  lemma {:induction false} HandledLeaves(s: State, timer: bool)
    ensures var s' := Handled(s.(timer := timer));
            && LivesOn(s, s') && SameRecord(s, s') && s'.phase.Selecting? && s'.failed == s.failed
            && s'.pending == s.pending && s'.timer == timer && s'.running == s.running
  {
  }

  lemma {:induction false} SettleLeaves(c: Config, s: State, isNew: bool)
    ensures var s' := Settle(c, s, isNew);
            && LivesOn(s, s') && SameRecord(s, s') && !s'.phase.Readying? && s'.failed == s.failed
            && s'.pending == s.pending && s'.running == s.running
            && (s.failed.Some? ==> s'.phase.Selecting? && s'.timer == (s.timer || (isNew && s.pending < c.maxItems)))
  {
    hide LivesOn, SameRecord, Handled;
    assert s.(timer := s.timer) == s;
    HandledLeaves(s, s.timer);
    HandledLeaves(s, true);
    FlushingLeaves(s);
  }

  lemma {:induction false} FlushingLeaves(s: State)
    ensures LivesOn(s, s.(phase := Flushing(true))) && SameRecord(s, s.(phase := Flushing(true)))
  {
  }

  lemma {:induction false} ProcessLeaves(s: State, m: Message, e: Option<Error>)
    requires s.sharedError.None? && s.failed.None?
    ensures var s' := Process(s, m, e);
            && LivesOn(s, s') && s'.queue == s.queue && s'.nextId == s.nextId && s'.flushed == s.flushed
            && s'.sent == s.sent
            && (if e.None? then
                  && s'.batch == s.batch + [m] && s'.answers == s.answers[m.id := Called] && s'.failed.None?
                else
                  && s'.batch == s.batch && s'.answers == s.answers[m.id := Failed(e.value)]
                  && s'.failed == Some(e.value) && !s'.timer && s'.pending == s.pending)
  {
  }

  lemma {:induction false} ReceiveLeaves(c: Config, s: State)
    requires s.queue != [] && s.phase.Selecting?
    ensures var s' := Receive(c, s);
            && LivesOn(s, s') && s'.nextId == s.nextId && s'.flushed == s.flushed && s'.batch == s.batch
            && s'.sent == s.sent && s'.failed == s.failed && s'.queue == s.queue[1..] && s'.running == s.running
            && (if s.failed.None? then s'.phase == Readying(s.queue[0]) && s'.answers == s.answers
                else
                  && s'.phase.Selecting? && s'.answers == s.answers[s.queue[0].id := Failed(s.failed.value)]
                  && s'.pending == s.pending && s'.timer == (s.timer || (s.pending == 0 && s.pending < c.maxItems)))
  {
    if s.failed.Some? {
      var s1 := Reply(s.(queue := s.queue[1..]), s.queue[0], Failed(s.failed.value));
      assert LivesOn(s, s1) && Receive(c, s) == Settle(c, s1, s.pending == 0);
      SettleLeaves(c, s1, s.pending == 0);
      hide Receive, Settle;
    } else {
      assert Receive(c, s) == s.(queue := s.queue[1..], phase := Readying(s.queue[0]));
      hide Receive, Settle;
    }
  }

  lemma {:induction false} FlushLeaves(s: State, permit: bool, e: Option<Error>)
    ensures var s' := Flush(s, permit, e);
            && LivesOn(s, s') && s'.phase.Selecting? && s'.queue == s.queue && s'.nextId == s.nextId
            && s'.sent == s.sent && s'.answers == s.answers
            && s'.batch == FlushBatch(s, e).batch && s'.flushed == FlushBatch(s, e).flushed
  {
  }

  lemma {:induction false} FailLeaves(s: State, e: Error)
    requires s.sharedError == s.failed
    ensures var s' := Fail(s, e);
            && LivesOn(s, s') && SameRecord(s, s') && s'.phase == s.phase && s'.failed.Some?
            && s'.available == s.available
  {
  }

  /** What is left of a state when the worker goes away. */
  lemma {:induction false} ExitLeaves(s: State, task: Task)
    ensures var s' := Exit(s, task);
            && Upcoming(s') == [] && s'.task == task && s'.phase.Selecting? && s'.aborted == s.aborted
            && s'.joined == s.joined && s'.nextId == s.nextId && s'.batch == s.batch && s'.flushed == s.flushed
            && s'.sent == s.sent
            && s'.answers == RepliedAll(s.answers, s.queue, Failed(LastError(s)))
            && s'.abandoned == if s.phase.Readying? then Some(s.phase.message.id) else s.abandoned
  {
    hide RepliedAll;
  }

  lemma {:induction false} FinishLeaves(s: State, e: Option<Error>)
    requires s.running > 0
    ensures LivesOn(s, FinishBatch(s, e)) && SameRecord(s, FinishBatch(s, e)) && FinishBatch(s, e).phase == s.phase
  {
  }

  // -------------------------------------------------------------------------
  // Whole runs.

  /** Anything that happens: a poll of the worker, a client's doing, or the worker being dropped where it waits. */
  datatype Event = Turn(poll: Poll) | Ask(client: nat) | Send(client: nat, weight: nat) | DropWorker

  /** Nothing happens after a panic, which aborts the process. */
  ghost function Next(c: Config, s: State, e: Event): State {
    if s.aborted then s
    else match e
      case Turn(p) => Step(c, s, p)
      case Ask(client) => PollReady(c, s, client).0
      case Send(client, weight) => Call(s, client, weight).0
      case DropWorker => if s.task.Running? then Exit(s, Cancelled) else s
  }

  ghost function After(c: Config, s: State, es: seq<Event>): State {
    if es == [] then s else Next(c, After(c, s, es[..|es| - 1]), es[|es| - 1])
  }

  /** Responses are never changed or taken back, nothing sent is forgotten, and the first error stays. */
  ghost predicate Grows(s: State, s': State) {
    && (forall id :: !ResponseOf(s, id).Waiting? ==> ResponseOf(s', id) == ResponseOf(s, id))
    && (forall id :: id in s.sent ==> id in s'.sent && s'.sent[id] == s.sent[id])
    && (s.failed.Some? ==> s'.failed == s.failed)
    && s.flushed <= s'.flushed && (!s.task.Running? ==> s'.task == s.task)
  }

  lemma {:induction false} GrowsOn(s: State, s1: State, s2: State)
    requires Grows(s, s1) && Grows(s1, s2)
    ensures Grows(s, s2)
  {
    hide ResponseOf;
  }

  /** A state with the same record of requests, and no earlier error. */
  lemma {:induction false} SameGrows(s: State, s': State)
    requires s'.sent == s.sent && s'.answers == s.answers && s'.abandoned == s.abandoned
    requires s.flushed <= s'.flushed && (s.failed.Some? ==> s'.failed == s.failed)
    requires !s.task.Running? ==> s'.task == s.task
    ensures Grows(s, s')
  {
    forall id ensures ResponseOf(s', id) == ResponseOf(s, id) {
    }
  }

  /** A state with one more answer. */
  lemma {:induction false} AnswerGrows(s: State, s': State, id: nat, a: Answer)
    requires ResponseOf(s, id).Waiting? && s'.answers == s.answers[id := a]
    requires s'.sent == s.sent && s'.abandoned == s.abandoned && s'.flushed == s.flushed
    requires (s.failed.Some? ==> s'.failed == s.failed) && s'.task == s.task
    ensures Grows(s, s')
  {
  }

  lemma {:induction false} ReceiveGrows(c: Config, s: State)
    requires Inv(c, s) && s.queue != [] && s.phase.Selecting?
    ensures Grows(s, Receive(c, s))
  {
    QueuedInFlight(s, 0);
    hide Inv, Grows;
    if s.failed.Some? {
      AnswerGrows(s, Receive(c, s), s.queue[0].id, Failed(s.failed.value));
    } else {
      SameGrows(s, Receive(c, s));
    }
  }

  lemma {:induction false} ProcessGrows(c: Config, s: State, e: Option<Error>)
    requires Inv(c, s) && s.phase.Readying?
    ensures Grows(s, Settle(c, Process(s, s.phase.message, e), s.pending == 0))
  {
    assert InFlight(s, Upcoming(s)[0]) && s.failed.None? && s.sharedError.None?;
    hide Inv, Grows;
    AnswerGrows(s, Settle(c, Process(s, s.phase.message, e), s.pending == 0), s.phase.message.id,
                if e.None? then Called else Failed(e.value));
  }

  lemma {:induction false} FlushGrows(c: Config, s: State, e: Option<Error>)
    requires Inv(c, s) && s.phase.Flushing?
    ensures Grows(s, Flush(s, s.phase.permit, e))
  {
    assert s.failed.None?;
    hide Inv, Grows;
    SameGrows(s, Flush(s, s.phase.permit, e));
  }

  lemma {:induction false} FinishGrows(s: State, e: Option<Error>)
    requires s.sharedError == s.failed && s.running > 0
    ensures Grows(s, FinishBatch(s, e))
  {
    hide Grows;
    SameGrows(s, FinishBatch(s, e));
  }

  lemma {:induction false} ExitGrows(c: Config, s: State, task: Task)
    requires Inv(c, s) && s.task.Running?
    ensures Grows(s, Exit(s, task))
  {
    var s' := Exit(s, task);
    assert s.abandoned.None?;
    forall id | !ResponseOf(s, id).Waiting? ensures ResponseOf(s', id) == ResponseOf(s, id) {
      RepliedAllEffect(s.answers, s.queue, Failed(LastError(s)), id);
      forall i | 0 <= i < |s.queue| ensures s.queue[i].id != id {
        QueuedInFlight(s, i);
      }
    }
  }

  lemma {:induction false} SelectGrows(c: Config, s: State, p: Poll)
    requires Inv(c, s) && s.task.Running? && s.phase.Selecting?
    ensures Grows(s, Select(c, s, p))
  {
    assert s.sharedError == s.failed;
    hide Inv, Receive, Exit, FinishBatch, Grows;
    if !ArmEnabled(c, s) {
      SameGrows(s, s.(aborted := true));
    } else if s.running > 0 && p.batchResult.Some? {
      FinishGrows(s, p.batchResult.value);
    } else if s.timer && p.timerElapsed {
      SameGrows(s, TimeOut(s));
    } else if s.running < c.maxConcurrent && s.queue != [] {
      ReceiveGrows(c, s);
    } else {
      ExitGrows(c, s, Returned);
      SameGrows(s, s);
    }
  }

  lemma {:induction false} StepGrows(c: Config, s: State, p: Poll)
    requires Inv(c, s)
    ensures Grows(s, Step(c, s, p))
  {
    hide Inv, Select, Settle, Process, Flush, Grows;
    SameGrows(s, s);
    if s.task.Running? {
      match s.phase
      case Selecting =>
        SelectGrows(c, s, p);
      case Readying(m) =>
        if p.ready.Some? {
          ProcessGrows(c, s, p.ready.value);
        }
      case Flushing(permit) =>
        if p.ready.Some? {
          FlushGrows(c, s, p.ready.value);
        }
    }
  }

  lemma {:induction false} SendGrows(c: Config, s: State, client: nat, weight: nat)
    requires Inv(c, s)
    ensures Grows(s, Call(s, client, weight).0)
  {
    hide Weight, Fits;
  }

  /** Only permits, the handle or the process differ. */
  ghost predicate Untouched(s: State, s': State) {
    && s'.queue == s.queue && s'.phase == s.phase && s'.task == s.task && s'.failed == s.failed
    && s'.running == s.running && s'.timer == s.timer && s'.pending == s.pending
    && s'.nextId == s.nextId && s'.batch == s.batch && s'.flushed == s.flushed && s'.sent == s.sent
    && s'.answers == s.answers && s'.abandoned == s.abandoned
  }

  lemma {:induction false} UntouchedFlags(s: State)
    ensures Untouched(s, s) && Untouched(s, s.(aborted := true)) && Untouched(s, s.(joined := true))
  {
  }

  lemma {:induction false} UntouchedPermits(s: State, available: nat, holders: set<nat>)
    ensures Untouched(s, s.(available := available, holders := holders))
  {
  }

  /** Asking changes permits, the handle and the process only. */
  lemma {:induction false} PollReadyRecord(c: Config, s: State, client: nat)
    ensures Untouched(s, PollReady(c, s, client).0)
  {
    hide Untouched;
    UntouchedFlags(s);
    var released := Release(s, client);
    if client in s.holders {
      UntouchedPermits(s, s.available + 1, s.holders - {client});
    }
    if released.available > 0 {
      UntouchedPermits(s, released.available - 1, released.holders + {client});
      assert released.(available := released.available - 1, holders := released.holders + {client}) ==
             s.(available := released.available - 1, holders := released.holders + {client});
    }
  }

  /** What sending leaves alone. */
  ghost predicate OnlySends(s: State, s': State) {
    && s'.phase == s.phase && s'.task == s.task && s'.failed == s.failed && s'.running == s.running
    && s'.timer == s.timer && s'.pending == s.pending && s'.batch == s.batch && s'.flushed == s.flushed
    && s'.answers == s.answers && s'.abandoned == s.abandoned && s.queue <= s'.queue
  }

  lemma {:induction false} UntouchedSends(s: State, s': State)
    requires Untouched(s, s')
    ensures OnlySends(s, s')
  {
  }

  lemma {:induction false} QueuedSends(s: State, holders: set<nat>, m: Message, nextId: nat)
    ensures OnlySends(s, s.(holders := holders, queue := s.queue + [m], sent := s.sent[m.id := m], nextId := nextId))
  {
  }

  /** Sending changes what is sent and queued, permits and the process only. */
  lemma {:induction false} SendRecord(s: State, client: nat, weight: nat)
    ensures OnlySends(s, Call(s, client, weight).0)
  {
    hide Untouched, OnlySends;
    if client !in s.holders {
      UntouchedFlags(s);
      UntouchedSends(s, s.(aborted := true));
    } else if s.closed {
      UntouchedPermits(s, s.available + 1, s.holders - {client});
      UntouchedSends(s, Release(s, client));
    } else {
      QueuedSends(s, s.holders - {client}, Message(s.nextId, weight), s.nextId + 1);
    }
  }

  lemma {:induction false} PollReadyGrows(c: Config, s: State, client: nat)
    ensures Grows(s, PollReady(c, s, client).0)
  {
    PollReadyRecord(c, s, client);
    hide Grows, PollReady;
    SameGrows(s, PollReady(c, s, client).0);
  }

  lemma {:induction false} NextKeeps(c: Config, s: State, e: Event)
    requires Inv(c, s)
    ensures Inv(c, Next(c, s, e)) && Grows(s, Next(c, s, e))
  {
    hide Inv, Step, Exit, Call, PollReady, Grows;
    SameGrows(s, s);
    match e
    case Turn(p) =>
      StepKeepsInv(c, s, p);
      StepGrows(c, s, p);
    case Ask(client) =>
      PollReadyKeepsInv(c, s, client);
      PollReadyGrows(c, s, client);
    case Send(client, weight) =>
      CallKeepsInv(c, s, client, weight);
      SendGrows(c, s, client, weight);
    case DropWorker =>
      if s.task.Running? {
        ExitKeepsInv(c, s, Cancelled);
        ExitGrows(c, s, Cancelled);
      }
  }

  /** In every state that any run reaches: at most `maxConcurrent` batches run, the pending weight is below the
    * limit until it is flushed or a failure, flushed batches fit, errors agree, and every request is in hand or queued
    * once, answered once, or dropped unanswered. */
  lemma {:induction false} RunKeepsInv(c: Config, es: seq<Event>)
    requires c.maxItems >= 1
    ensures Inv(c, After(c, Initial(c), es))
  {
    hide Next, Initial, Inv;
    if es == [] {
      InitialInv(c);
    } else {
      RunKeepsInv(c, es[..|es| - 1]);
      NextKeeps(c, After(c, Initial(c), es[..|es| - 1]), es[|es| - 1]);
    }
  }

  /** Responses given and the first error reported at any point of a run are never taken back later. */
  lemma {:induction false} RunGrows(c: Config, s: State, es: seq<Event>)
    requires Inv(c, s)
    ensures Inv(c, After(c, s, es)) && Grows(s, After(c, s, es))
  {
    hide Next, Inv, Grows;
    if es == [] {
      SameGrows(s, s);
    } else {
      var s' := After(c, s, es[..|es| - 1]);
      RunGrows(c, s, es[..|es| - 1]);
      NextKeeps(c, s', es[|es| - 1]);
      GrowsOn(s, s', After(c, s, es));
    }
  }

  lemma {:induction false} AfterOneMore(c: Config, s: State, es: seq<Event>, e: Event)
    ensures After(c, s, es + [e]) == Next(c, After(c, s, es), e)
    ensures After(c, s, []) == s
  {
    assert (es + [e])[..|es|] == es;
  }

  /** Once the worker has gone away, by whatever path, every request ever sent has a response: the worker's answer, but
    * for the one that it had in hand when it was dropped. Later sends are refused with the worker's error. Asking is
    * refused with that error, or as cancelled if the task is watched, and panics once the watched task was joined. */
  lemma {:induction false} GoneRespondsToAll(c: Config, s: State, client: nat, weight: nat)
    requires Inv(c, s) && !s.task.Running?
    ensures forall id :: id in s.sent ==> !ResponseOf(s, id).Waiting?
    ensures s.answers.Keys == s.sent.Keys - (if s.abandoned.Some? then {s.abandoned.value} else {})
    ensures s.answers.Keys == s.sent.Keys <==> s.abandoned.None?
    ensures Call(s, client, weight).1.Panic? || Call(s, client, weight).1 == SendFailed(s.failed.value)
    ensures PollReady(c, s, client).1 ==
            if !c.registered then NotReady(s.failed.value)
            else if s.joined then Panicked
            else NotReady(if s.task.Cancelled? then TaskCancelled else s.failed.value)
  {
    forall id | id in s.sent ensures !ResponseOf(s, id).Waiting? {
    }
    forall id | id in s.sent && s.abandoned != Some(id) ensures id in s.answers {
      assert !ResponseOf(s, id).Waiting?;
    }
  }
}
