/** What whole runs of the batcher guarantee: the order of items, what a dropped worker leaves unanswered, when the
  * process panics, and what a failed worker still does. */
module BatchRuns {
  import opened Batching
  import opened Options

  // -------------------------------------------------------------------------
  // Order.

  ghost function Concat(batches: seq<seq<Message>>): seq<Message> {
    if batches == [] then [] else Concat(batches[..|batches| - 1]) + batches[|batches| - 1]
  }

  /** The items handed to the service, batch by batch. */
  ghost function Handed(s: State): seq<Message> {
    Concat(s.flushed) + s.batch
  }

  ghost predicate Ascending(ms: seq<Message>) {
    forall i, j :: 0 <= i < j < |ms| ==> ms[i].id < ms[j].id
  }

  /** Items reach the service as they were sent and in that order, each in exactly one batch, and exactly those
    * requests that were told so did. */
  ghost predicate InOrder(s: State) {
    && Ascending(Handed(s) + Upcoming(s))
    && (forall i :: 0 <= i < |Handed(s) + Upcoming(s)| ==> IsSent(s, (Handed(s) + Upcoming(s))[i]))
    && (forall id :: WasCalled(s, id) <==> HasId(Handed(s), id))
  }

  ghost predicate IsSent(s: State, m: Message) {
    m.id < s.nextId && m.id in s.sent && s.sent[m.id] == m
  }

  ghost predicate WasCalled(s: State, id: nat) {
    id in s.answers && s.answers[id] == Called
  }

  lemma {:induction false} SameOrder(s: State, s': State)
    requires InOrder(s) && Handed(s') == Handed(s)
    requires Upcoming(s') == Upcoming(s) && s'.nextId == s.nextId && s'.answers == s.answers && s'.sent == s.sent
    ensures InOrder(s')
  {
    hide Handed, HasId, Upcoming;
    forall id ensures WasCalled(s', id) <==> HasId(Handed(s'), id) {
      assert WasCalled(s, id) <==> HasId(Handed(s), id);
    }
  }

  /** Starting a new batch hands over nothing. */
  lemma {:induction false} FlushHanded(s: State, e: Option<Error>)
    ensures Handed(FlushBatch(s, e)) == Handed(s)
  {
    var flushed := s.flushed + [s.batch];
    assert flushed[..|s.flushed|] == s.flushed;
  }

  lemma {:induction false} HasIdAppend(ms: seq<Message>, m: Message, id: nat)
    ensures HasId(ms + [m], id) <==> HasId(ms, id) || id == m.id
  {
    HasIdLast(ms + [m], id);
    assert (ms + [m])[..|ms|] == ms;
  }

  /** An upcoming request has not been handed over. */
  lemma {:induction false} UpcomingNotHanded(s: State, i: nat)
    requires InOrder(s) && i < |Upcoming(s)|
    ensures !HasId(Handed(s), Upcoming(s)[i].id)
  {
    var h, u := Handed(s), Upcoming(s);
    forall k | 0 <= k < |h| ensures h[k].id != u[i].id {
      assert (h + u)[k].id < (h + u)[|h| + i].id;
    }
  }

  /** Handing over the first upcoming request keeps the order. */
  lemma {:induction false} HandOver(s: State, s': State)
    requires InOrder(s) && Upcoming(s) != [] && Upcoming(s') == Upcoming(s)[1..]
    requires Handed(s') == Handed(s) + [Upcoming(s)[0]]
    requires s'.answers == s.answers[Upcoming(s)[0].id := Called] && s'.nextId == s.nextId && s'.sent == s.sent
    ensures InOrder(s')
  {
    var m := Upcoming(s)[0];
    assert Handed(s') + Upcoming(s') == Handed(s) + Upcoming(s);
    hide Handed, HasId, Upcoming;
    forall id ensures WasCalled(s', id) <==> HasId(Handed(s'), id) {
      HasIdAppend(Handed(s), m, id);
      assert WasCalled(s, id) <==> HasId(Handed(s), id);
    }
  }

  /** Refusing the first upcoming request keeps the order. */
  lemma {:induction false} Refuse(s: State, s': State, e: Error)
    requires InOrder(s) && Upcoming(s) != [] && Upcoming(s') == Upcoming(s)[1..]
    requires Handed(s') == Handed(s) && s'.nextId == s.nextId && s'.sent == s.sent
    requires s'.answers == s.answers[Upcoming(s)[0].id := Failed(e)]
    ensures InOrder(s')
  {
    var h := Handed(s);
    var w, w' := h + Upcoming(s), h + Upcoming(s');
    UpcomingNotHanded(s, 0);
    hide Handed, HasId, Upcoming;
    forall i | 0 <= i < |w'| ensures w'[i] == w[if i < |h| then i else i + 1] {
    }
    forall id ensures WasCalled(s', id) <==> HasId(h, id) {
      assert WasCalled(s, id) <==> HasId(Handed(s), id);
    }
  }

  lemma {:induction false} ReceiveInOrder(c: Config, s: State)
    requires InOrder(s) && s.queue != [] && s.phase.Selecting?
    ensures InOrder(Receive(c, s))
  {
    ReceiveLeaves(c, s);
    hide InOrder, Concat, Receive;
    if s.failed.Some? {
      Refuse(s, Receive(c, s), s.failed.value);
    } else {
      assert Upcoming(Receive(c, s)) == Upcoming(s);
      SameOrder(s, Receive(c, s));
    }
  }

  lemma {:induction false} ProcessInOrder(c: Config, s: State, e: Option<Error>)
    requires InOrder(s) && s.phase.Readying? && s.sharedError.None? && s.failed.None?
    ensures InOrder(Settle(c, Process(s, s.phase.message, e), s.pending == 0))
  {
    hide InOrder, Concat, Process, Settle;
    var s1 := Process(s, s.phase.message, e);
    var s' := Settle(c, s1, s.pending == 0);
    ProcessLeaves(s, s.phase.message, e);
    SettleLeaves(c, s1, s.pending == 0);
    assert Upcoming(s) == [s.phase.message] + s.queue && Upcoming(s') == s.queue;
    if e.None? {
      assert Handed(s') == Handed(s) + [s.phase.message];
      HandOver(s, s');
    } else {
      Refuse(s, s', e.value);
    }
  }

  lemma {:induction false} FlushInOrder(s: State, e: Option<Error>)
    requires InOrder(s) && s.phase.Flushing?
    ensures InOrder(Flush(s, s.phase.permit, e))
  {
    FlushHanded(s, e);
    FlushLeaves(s, s.phase.permit, e);
    hide InOrder, Concat, Flush, FlushBatch;
    SameOrder(s, Flush(s, s.phase.permit, e));
  }

  lemma {:induction false} ExitInOrder(s: State, task: Task)
    requires InOrder(s)
    ensures InOrder(Exit(s, task))
  {
    ExitLeaves(s, task);
    hide Exit, LastError;
    var h, s' := Handed(s), Exit(s, task);
    var w := h + Upcoming(s);
    assert Handed(s') == h && h + Upcoming(s') == h;
    forall i | 0 <= i < |h| ensures h[i] == w[i] {
    }
    forall id ensures WasCalled(s', id) <==> HasId(h, id) {
      RepliedAllEffect(s.answers, s.queue, Failed(LastError(s)), id);
      assert WasCalled(s, id) <==> HasId(Handed(s), id);
      if i :| 0 <= i < |s.queue| && s.queue[i].id == id {
        var k := if s.phase.Readying? then i + 1 else i;
        assert Upcoming(s)[k] == s.queue[i];
        UpcomingNotHanded(s, k);
      }
    }
  }

  lemma {:induction false} SendInOrder(s: State, client: nat, weight: nat)
    requires InOrder(s)
    ensures InOrder(Call(s, client, weight).0)
  {
    var s' := Call(s, client, weight).0;
    if client in s.holders && !s.closed {
      var m := Message(s.nextId, weight);
      assert Upcoming(s') == Upcoming(s) + [m];
      hide Upcoming;
      assert Handed(s') + Upcoming(s') == (Handed(s) + Upcoming(s)) + [m];
      assert forall id :: WasCalled(s', id) <==> WasCalled(s, id);
    } else {
      SameOrder(s, s');
    }
  }

  lemma {:induction false} FinishInOrder(s: State, e: Option<Error>)
    requires InOrder(s) && s.running > 0
    ensures InOrder(FinishBatch(s, e))
  {
    FinishLeaves(s, e);
    hide InOrder, Concat, FinishBatch;
    SameOrder(s, FinishBatch(s, e));
  }

  lemma {:induction false} SelectInOrder(c: Config, s: State, p: Poll)
    requires InOrder(s) && s.phase.Selecting?
    ensures InOrder(Select(c, s, p))
  {
    hide InOrder, Receive, Exit, FinishBatch, Concat;
    if !ArmEnabled(c, s) {
      SameOrder(s, s.(aborted := true));
    } else if s.running > 0 && p.batchResult.Some? {
      FinishInOrder(s, p.batchResult.value);
    } else if s.timer && p.timerElapsed {
      SameOrder(s, TimeOut(s));
    } else if s.running < c.maxConcurrent && s.queue != [] {
      ReceiveInOrder(c, s);
    } else {
      ExitInOrder(s, Returned);
    }
  }

  lemma {:induction false} StepInOrder(c: Config, s: State, p: Poll)
    requires Inv(c, s) && InOrder(s)
    ensures InOrder(Step(c, s, p))
  {
    assert s.phase.Readying? ==> s.sharedError.None? && s.failed.None?;
    hide Inv, InOrder, Select, Settle, Process, Flush;
    if s.task.Running? {
      match s.phase
      case Selecting =>
        SelectInOrder(c, s, p);
      case Readying(m) =>
        if p.ready.Some? {
          ProcessInOrder(c, s, p.ready.value);
        }
      case Flushing(permit) =>
        if p.ready.Some? {
          FlushInOrder(s, p.ready.value);
        }
    }
  }

  lemma {:induction false} AskInOrder(c: Config, s: State, client: nat)
    requires InOrder(s)
    ensures InOrder(PollReady(c, s, client).0)
  {
    PollReadyRecord(c, s, client);
    hide InOrder, Concat, PollReady;
    SameOrder(s, PollReady(c, s, client).0);
  }

  lemma {:induction false} NextInOrder(c: Config, s: State, e: Event)
    requires Inv(c, s) && InOrder(s)
    ensures InOrder(Next(c, s, e))
  {
    hide InOrder, Step, Exit, Inv, Call, PollReady;
    match e
    case Turn(p) =>
      StepInOrder(c, s, p);
    case Ask(client) =>
      AskInOrder(c, s, client);
    case Send(client, weight) =>
      SendInOrder(s, client, weight);
    case DropWorker =>
      ExitInOrder(s, Cancelled);
  }

  /** Over every run items reach the service in the order they were sent, each in exactly one batch, and a
    * request is told that the service was called exactly if its item was handed over. */
  lemma {:induction false} RunInOrder(c: Config, es: seq<Event>)
    requires c.maxItems >= 1
    ensures InOrder(After(c, Initial(c), es))
  {
    hide Next, Inv, InOrder;
    if es == [] {
      InitialInOrder(c);
    } else {
      RunInOrder(c, es[..|es| - 1]);
      RunKeepsInv(c, es[..|es| - 1]);
      NextInOrder(c, After(c, Initial(c), es[..|es| - 1]), es[|es| - 1]);
    }
  }

  lemma {:induction false} InitialInOrder(c: Config)
    ensures InOrder(Initial(c))
  {
  }

  // -------------------------------------------------------------------------
  // What a dropped worker leaves unanswered.

  /** The state before an event of a run. */
  ghost function Before(c: Config, es: seq<Event>, i: nat): State
    requires i <= |es|
  {
    After(c, Initial(c), es[..i])
  }

  lemma {:induction false} BeforeIn(c: Config, es: seq<Event>, i: nat, n: nat)
    requires i <= n <= |es|
    ensures Before(c, es[..n], i) == Before(c, es, i)
  {
    assert es[..n][..i] == es[..i];
  }

  /** The worker is dropped while it has a request in hand. */
  ghost predicate DropsInHand(c: Config, es: seq<Event>, i: nat)
    requires i < |es|
  {
    var s := Before(c, es, i);
    es[i].DropWorker? && s.task.Running? && s.phase.Readying? && !s.aborted
  }

  ghost predicate DroppedInHand(c: Config, es: seq<Event>) {
    exists i :: 0 <= i < |es| && DropsInHand(c, es, i)
  }

  lemma {:induction false} DroppedInHandLast(c: Config, es: seq<Event>)
    requires es != []
    ensures DroppedInHand(c, es) <==> DroppedInHand(c, es[..|es| - 1]) || DropsInHand(c, es, |es| - 1)
  {
    var n := |es| - 1;
    forall i | 0 <= i < n ensures DropsInHand(c, es[..n], i) <==> DropsInHand(c, es, i) {
      BeforeIn(c, es, i, n);
    }
    hide DropsInHand;
    if i :| 0 <= i < |es| && DropsInHand(c, es, i) {
      assert i < n ==> DropsInHand(c, es[..n], i);
    }
    if i :| 0 <= i < n && DropsInHand(c, es[..n], i) {
      assert DropsInHand(c, es, i);
    }
  }

  lemma {:induction false} AbandonedNext(c: Config, s: State, e: Event)
    requires Inv(c, s)
    ensures Next(c, s, e).abandoned ==
            if e.DropWorker? && s.task.Running? && s.phase.Readying? && !s.aborted then Some(s.phase.message.id)
            else s.abandoned
  {
    match e
    case Turn(p) =>
      TurnEffect(c, s, p);
      hide Step, Inv;
    case Ask(client) =>
      PollReadyRecord(c, s, client);
      hide PollReady, Inv;
    case Send(client, weight) =>
      hide Inv;
    case DropWorker =>
      assert s.task.Running? ==> s.abandoned.None?;
      hide Inv;
  }

  /** Over every run a request is left without an answer by a worker that is gone if and only if the worker was dropped
    * with a request in hand. */
  lemma {:induction false} AbandonsExactly(c: Config, es: seq<Event>)
    requires c.maxItems >= 1
    ensures After(c, Initial(c), es).abandoned.Some? <==> DroppedInHand(c, es)
  {
    if es == [] {
    } else {
      var n := |es| - 1;
      AbandonsExactly(c, es[..n]);
      RunKeepsInv(c, es[..n]);
      DroppedInHandLast(c, es);
      hide Next, Inv, DroppedInHand, Initial;
      AbandonedNext(c, After(c, Initial(c), es[..n]), es[n]);
    }
  }

  /** So whenever the worker is gone after a run, it has answered every request ever sent, if and only if it was not
    * dropped with a request in hand. */
  lemma {:induction false} AnswersAllExactly(c: Config, es: seq<Event>)
    requires c.maxItems >= 1 && !After(c, Initial(c), es).task.Running?
    ensures var s := After(c, Initial(c), es);
            && (s.answers.Keys == s.sent.Keys <==> !DroppedInHand(c, es))
            && forall id :: id in s.sent && id !in s.answers ==> ResponseOf(s, id) == SenderDropped
  {
    hide After, DroppedInHand;
    RunKeepsInv(c, es);
    AbandonsExactly(c, es);
    GoneRespondsToAll(c, After(c, Initial(c), es), 0, 0);
  }

  /** A new worker takes a request off the channel, waits for the service, and is dropped: the request is never
    * answered. */
  lemma {:induction false} DroppedRequest(c: Config, p: Poll)
    requires c.maxItems >= 1 && c.maxConcurrent >= 1 && c.permits >= 1
    ensures var s := After(c, Initial(c), [Ask(0), Send(0, 1), Turn(p), DropWorker]);
            && s.task.Cancelled? && s.sent == map[0 := Message(0, 1)] && s.answers == map[]
            && ResponseOf(s, 0) == SenderDropped && !s.aborted
  {
    var es := [Ask(0), Send(0, 1), Turn(p), DropWorker];
    var s0 := Initial(c);
    assert es[..0] == [] && es[..1] == es[..0] + [es[0]] && es[..2] == es[..1] + [es[1]];
    assert es[..3] == es[..2] + [es[2]] && es == es[..3] + [es[3]];
    AfterOneMore(c, s0, es[..0], es[0]);
    AfterOneMore(c, s0, es[..1], es[1]);
    AfterOneMore(c, s0, es[..2], es[2]);
    AfterOneMore(c, s0, es[..3], es[3]);
    hide After, Next, Sending;
    assert Sending(c, s0, 0) by { InitialSending(c); }
    SendOne(c, s0, 0);
    TakeAndDrop(c, After(c, s0, es[..2]), p);
  }

  lemma {:induction false} TakeAndDrop(c: Config, s: State, p: Poll)
    requires Sending(c, s, 1) && c.maxConcurrent >= 1
    ensures var s' := Next(c, Next(c, s, Turn(p)), DropWorker);
            && s'.task.Cancelled? && s'.sent == s.sent && s'.answers == s.answers && s'.abandoned == Some(0)
            && !s'.aborted
  {
    assert s.queue == [Message(0, 1)];
    var s1 := Next(c, s, Turn(p));
    assert s1 == s.(queue := [], phase := Readying(Message(0, 1)));
  }

  /** An untouched worker, with as many requests queued as have been sent. */
  ghost predicate Sending(c: Config, s: State, n: nat) {
    && s.task.Running? && !s.closed && !s.semaphoreClosed && s.sharedError.None? && s.failed.None? && !s.timer
    && s.phase.Selecting? && !s.aborted && s.abandoned.None? && s.answers == map[]
    && s.pending == 0 && s.running == 0 && s.nextId == n && s.holders == {} && s.available + n == c.permits
    && s.queue == seq(n, i requires 0 <= i < n => Message(i, 1))
    && s.sent == map i | 0 <= i < n :: Message(i, 1)
  }

  lemma {:induction false} InitialSending(c: Config)
    ensures Sending(c, Initial(c), 0)
  {
  }

  lemma {:induction false} SendOne(c: Config, s: State, n: nat)
    requires Sending(c, s, n) && n < c.permits
    ensures Sending(c, Next(c, Next(c, s, Ask(0)), Send(0, 1)), n + 1)
  {
    var s1 := Next(c, s, Ask(0));
    assert s1 == s.(available := s.available - 1, holders := {0});
    assert s1.holders - {0} == {};
  }

  // -------------------------------------------------------------------------
  // When the process panics.

  /** In every state that the invariant allows some arm of the select is enabled exactly if at least one
    * concurrent batch is allowed. */
  lemma {:induction false} SomeArmEnabled(c: Config, s: State)
    requires Inv(c, s)
    ensures ArmEnabled(c, s) <==> c.maxConcurrent >= 1
  {
  }

  ghost predicate HasDrop(es: seq<Event>) {
    exists i :: 0 <= i < |es| && es[i].DropWorker?
  }

  /** The worker takes a turn before it is dropped. */
  ghost predicate TakesTurn(es: seq<Event>) {
    exists i :: 0 <= i < |es| && es[i].Turn? && !HasDrop(es[..i])
  }

  /** A client asks again after it, or another client, has asked a worker that was gone. */
  ghost predicate AsksAgain(c: Config, es: seq<Event>) {
    exists i, j :: 0 <= i < j < |es| && AsksGone(c, es, i) && es[j].Ask?
  }

  ghost predicate AsksGone(c: Config, es: seq<Event>, i: nat)
    requires i < |es|
  {
    es[i].Ask? && !Before(c, es, i).task.Running?
  }

  /** A client sends without a permit. */
  ghost predicate SendsWithout(c: Config, es: seq<Event>, i: nat)
    requires i < |es|
  {
    es[i].Send? && es[i].client !in Before(c, es, i).holders
  }

  ghost predicate Misused(c: Config, es: seq<Event>) {
    exists i :: 0 <= i < |es| && SendsWithout(c, es, i)
  }

  ghost predicate AskedGone(c: Config, es: seq<Event>) {
    exists i :: 0 <= i < |es| && AsksGone(c, es, i)
  }

  lemma {:induction false} HasDropLast(es: seq<Event>)
    requires es != []
    ensures HasDrop(es) <==> HasDrop(es[..|es| - 1]) || es[|es| - 1].DropWorker?
  {
    var init := es[..|es| - 1];
    if i :| 0 <= i < |init| && init[i].DropWorker? {
      assert es[i].DropWorker?;
    }
    if i :| 0 <= i < |es| && es[i].DropWorker? {
      assert i < |init| ==> init[i].DropWorker?;
    }
  }

  lemma {:induction false} TakesTurnLast(es: seq<Event>)
    requires es != []
    ensures TakesTurn(es) <==> TakesTurn(es[..|es| - 1]) || (es[|es| - 1].Turn? && !HasDrop(es[..|es| - 1]))
  {
    hide HasDrop;
    var n := |es| - 1;
    var init := es[..n];
    if i :| 0 <= i < n && init[i].Turn? && !HasDrop(init[..i]) {
      assert init[..i] == es[..i] && es[i].Turn?;
    }
    if i :| 0 <= i < |es| && es[i].Turn? && !HasDrop(es[..i]) {
      assert i < n ==> init[..i] == es[..i] && init[i].Turn?;
    }
  }

  lemma {:induction false} MisusedLast(c: Config, es: seq<Event>)
    requires es != []
    ensures Misused(c, es) <==> Misused(c, es[..|es| - 1]) || SendsWithout(c, es, |es| - 1)
  {
    var n := |es| - 1;
    forall i | 0 <= i < n ensures SendsWithout(c, es[..n], i) <==> SendsWithout(c, es, i) {
      BeforeIn(c, es, i, n);
    }
    hide SendsWithout;
    if i :| 0 <= i < |es| && SendsWithout(c, es, i) {
      assert i < n ==> SendsWithout(c, es[..n], i);
    }
    if i :| 0 <= i < n && SendsWithout(c, es[..n], i) {
      assert SendsWithout(c, es, i);
    }
  }

  lemma {:induction false} AsksGoneIn(c: Config, es: seq<Event>, i: nat)
    requires i < |es| - 1
    ensures AsksGone(c, es[..|es| - 1], i) <==> AsksGone(c, es, i)
  {
    BeforeIn(c, es, i, |es| - 1);
  }

  lemma {:induction false} AskedGoneLast(c: Config, es: seq<Event>)
    requires es != []
    ensures AskedGone(c, es) <==> AskedGone(c, es[..|es| - 1]) || AsksGone(c, es, |es| - 1)
  {
    hide AsksGone;
    if i :| 0 <= i < |es| && AsksGone(c, es, i) {
      if i < |es| - 1 { AsksGoneIn(c, es, i); }
    }
    var init := es[..|es| - 1];
    if i :| 0 <= i < |init| && AsksGone(c, init, i) {
      AsksGoneIn(c, es, i);
    }
  }

  lemma {:induction false} AsksAgainLast(c: Config, es: seq<Event>)
    requires es != []
    ensures AsksAgain(c, es) <==>
            AsksAgain(c, es[..|es| - 1]) || (AskedGone(c, es[..|es| - 1]) && es[|es| - 1].Ask?)
  {
    hide AsksGone;
    var n := |es| - 1;
    var init := es[..n];
    if i, j :| 0 <= i < j < |es| && AsksGone(c, es, i) && es[j].Ask? {
      AsksGoneIn(c, es, i);
      if j < n { assert init[j].Ask?; }
    }
    if i, j :| 0 <= i < j < n && AsksGone(c, init, i) && init[j].Ask? {
      AsksGoneIn(c, es, i);
      assert es[j].Ask?;
    }
    if i :| 0 <= i < n && AsksGone(c, init, i) {
      AsksGoneIn(c, es, i);
    }
  }

  /** What makes a run panic: a turn of a worker that is allowed no concurrent batch, asking for a gone worker again if
    * its task is watched, or sending without a permit. */
  ghost predicate MustPanic(c: Config, es: seq<Event>) {
    (c.maxConcurrent == 0 && TakesTurn(es)) || (c.registered && AsksAgain(c, es)) || Misused(c, es)
  }

  /** What is known of a run that has not panicked. */
  ghost predicate Tracks(c: Config, es: seq<Event>, s: State) {
    && (s.aborted <==> MustPanic(c, es))
    && (!s.aborted ==> (s.joined <==> c.registered && AskedGone(c, es)))
    && (!s.aborted && c.maxConcurrent == 0 ==> (s.task.Running? <==> !HasDrop(es)))
    && (!s.aborted && !s.task.Running? && c.maxConcurrent == 0 ==> s.task.Cancelled?)
  }

  /** What one event does to the task, its handle and the process. */
  lemma {:induction false} EventEffect(c: Config, s: State, e: Event)
    requires Inv(c, s) && !s.aborted
    ensures var s' := Next(c, s, e);
            && (s'.aborted <==>
                  || (e.Turn? && s.task.Running? && s.phase.Selecting? && c.maxConcurrent == 0)
                  || (e.Ask? && c.registered && s.joined) || (e.Send? && e.client !in s.holders))
            && (s'.joined <==> s.joined || (e.Ask? && c.registered && !s.task.Running?))
            && (s.task.Running? ==> (s'.task.Cancelled? <==> e.DropWorker?))
            && (!s.task.Running? ==> s'.task == s.task)
            && (s'.task.Returned? && s.task.Running? ==> c.maxConcurrent >= 1)
            && (s'.task.Running? <==> s.task.Running? && !s'.task.Cancelled? && !s'.task.Returned?)
  {
    match e
    case Turn(p) =>
      TurnEffect(c, s, p);
      hide Step, Inv;
    case Ask(client) =>
      assert s.joined ==> !s.task.Running?;
      hide Inv;
    case Send(client, weight) =>
      hide Inv;
    case DropWorker =>
      hide Inv;
  }

  lemma {:induction false} TurnEffect(c: Config, s: State, p: Poll)
    requires Inv(c, s)
    ensures var s' := Step(c, s, p);
            && (s'.aborted <==> s.aborted || (s.task.Running? && s.phase.Selecting? && c.maxConcurrent == 0))
            && s'.joined == s.joined && s'.abandoned == s.abandoned && (s'.task.Cancelled? ==> s.task.Cancelled?)
            && (!s.task.Running? ==> s'.task == s.task)
            && (s'.task.Returned? && s.task.Running? ==> c.maxConcurrent >= 1)
  {
    assert !s.phase.Selecting? ==> s.failed.None? && s.sharedError.None?;
    assert !s.phase.Selecting? ==> c.maxConcurrent >= 1;
    if s.task.Running? {
      match s.phase
      case Selecting =>
        SelectEffect(c, s, p);
        hide Select, Inv;
      case Readying(m) =>
        if p.ready.Some? {
          ProcessLeaves(s, m, p.ready.value);
          SettleLeaves(c, Process(s, m, p.ready.value), s.pending == 0);
        }
        hide Process, Settle, Inv;
      case Flushing(permit) =>
        if p.ready.Some? {
          FlushLeaves(s, permit, p.ready.value);
        }
        hide Flush, Inv;
    }
  }

  lemma {:induction false} SelectEffect(c: Config, s: State, p: Poll)
    requires Inv(c, s) && s.phase.Selecting?
    ensures var s' := Select(c, s, p);
            && (s'.aborted <==> s.aborted || c.maxConcurrent == 0)
            && s'.joined == s.joined && s'.abandoned == s.abandoned
            && (s'.task == s.task || (s'.task.Returned? && c.maxConcurrent >= 1))
  {
    SomeArmEnabled(c, s);
    if s.queue != [] {
      ReceiveLeaves(c, s);
    }
    if s.running > 0 && p.batchResult.Some? {
      FinishLeaves(s, p.batchResult.value);
    }
    ExitLeaves(s, Returned);
    hide Inv, Exit, Receive, FinishBatch;
  }

  /** A run panics exactly if the worker takes a turn although no concurrent batch is allowed, a client asks again for a
    * gone worker whose task is watched, or a client sends without a permit. */
  lemma {:induction false} PanicsExactly(c: Config, es: seq<Event>)
    requires c.maxItems >= 1
    ensures After(c, Initial(c), es).aborted <==>
            (c.maxConcurrent == 0 && TakesTurn(es)) || (c.registered && AsksAgain(c, es)) || Misused(c, es)
  {
    RunTracks(c, es);
    hide After, TakesTurn, AsksAgain, Misused;
  }

  /** From a new worker: it is dropped, and two clients ask for it. The second one panics exactly if the worker task is
    * watched. */
  lemma {:induction false} SecondAskPanics(c: Config)
    ensures After(c, Initial(c), [DropWorker, Ask(0), Ask(1)]).aborted <==> c.registered
  {
    var es := [DropWorker, Ask(0), Ask(1)];
    var s0 := Initial(c);
    assert es[..0] == [] && es[..1] == es[..0] + [es[0]] && es[..2] == es[..1] + [es[1]] && es == es[..2] + [es[2]];
    AfterOneMore(c, s0, es[..0], es[0]);
    AfterOneMore(c, s0, es[..1], es[1]);
    AfterOneMore(c, s0, es[..2], es[2]);
    hide After;
    var s1 := Next(c, s0, DropWorker);
    assert s1.task.Cancelled? && !s1.joined && !s1.aborted && s1.closed;
  }

  lemma {:induction false} RunTracks(c: Config, es: seq<Event>)
    requires c.maxItems >= 1
    ensures Tracks(c, es, After(c, Initial(c), es))
  {
    if es == [] {
    } else {
      var n := |es| - 1;
      var s := After(c, Initial(c), es[..n]);
      RunTracks(c, es[..n]);
      RunKeepsInv(c, es[..n]);
      assert s == Before(c, es, n);
      assert !s.phase.Selecting? ==> c.maxConcurrent >= 1;
      HasDropLast(es);
      TakesTurnLast(es);
      MisusedLast(c, es);
      AskedGoneLast(c, es);
      AsksAgainLast(c, es);
      hide HasDrop, TakesTurn, Misused, AskedGone, AsksAgain, Before, Initial;
      if !s.aborted {
        EventEffect(c, s, es[n]);
      }
      hide Next, Inv;
    }
  }

  // -------------------------------------------------------------------------
  // What a failed worker still does.

  /** Whenever a request has been handled and the worker has failed, the timer is set exactly if no weight is pending:
    * also by the very request on which the service fails. */
  lemma {:induction false} FailedWorkerSetsTimer(c: Config, s: State, e: Error)
    requires Inv(c, s)
    ensures s.phase.Readying? ==>
              var s' := Settle(c, Process(s, s.phase.message, Some(e)), s.pending == 0);
              s'.failed == Some(e) && (s'.timer <==> s'.pending == 0)
    ensures s.failed.Some? && s.queue != [] ==>
              var s' := Receive(c, s); s'.failed == s.failed && (s'.timer <==> s'.pending == 0)
  {
    assert s.phase.Readying? ==> s.failed.None? && s.sharedError.None?;
    assert s.failed.Some? ==> s.phase.Selecting? && (s.timer ==> s.pending == 0);
    if s.phase.Readying? {
      ProcessLeaves(s, s.phase.message, Some(e));
      SettleLeaves(c, Process(s, s.phase.message, Some(e)), s.pending == 0);
    } else if s.failed.Some? && s.queue != [] {
      ReceiveLeaves(c, s);
    }
    hide Process, Settle, Receive, Accounted, Weight, Fits;
  }

  /** From a new worker: two requests are sent, and the service fails on the first. The worker has failed,
    * its timer is set and the second request is still queued. */
  lemma {:induction false} FailedWithTimer(c: Config, e: Error, p: Poll, q: Poll)
    requires c.maxItems >= 1 && c.maxConcurrent >= 1 && c.permits >= 2 && q.ready == Some(Some(e))
    ensures var s := After(c, Initial(c), [Ask(0), Send(0, 1), Ask(0), Send(0, 1), Turn(p), Turn(q)]);
            s.failed == Some(e) && s.timer && s.queue == [Message(1, 1)] && s.task.Running? && !s.aborted
  {
    var es := [Ask(0), Send(0, 1), Ask(0), Send(0, 1), Turn(p), Turn(q)];
    assert es[..0] == [] && es[..1] == es[..0] + [es[0]] && es[..2] == es[..1] + [es[1]];
    assert es[..3] == es[..2] + [es[2]] && es[..4] == es[..3] + [es[3]] && es[..5] == es[..4] + [es[4]];
    assert es == es[..5] + [es[5]];
    var s0 := Initial(c);
    AfterOneMore(c, s0, es[..0], es[0]);
    AfterOneMore(c, s0, es[..1], es[1]);
    AfterOneMore(c, s0, es[..2], es[2]);
    AfterOneMore(c, s0, es[..3], es[3]);
    AfterOneMore(c, s0, es[..4], es[4]);
    AfterOneMore(c, s0, es[..5], es[5]);
    hide After, Next, Sending;
    assert Sending(c, s0, 0) by { InitialSending(c); }
    SendOne(c, s0, 0);
    SendOne(c, After(c, s0, es[..2]), 1);
    FailOnFirst(c, After(c, s0, es[..4]), p, q, e);
  }

  lemma {:induction false} FailOnFirst(c: Config, s: State, p: Poll, q: Poll, e: Error)
    requires Sending(c, s, 2) && c.maxItems >= 1 && c.maxConcurrent >= 1 && q.ready == Some(Some(e))
    ensures var s' := Next(c, Next(c, s, Turn(p)), Turn(q));
            && s'.failed == Some(e) && s'.timer && s'.queue == [Message(1, 1)] && s'.task.Running? && !s'.aborted
  {
    assert s.queue == [Message(0, 1), Message(1, 1)];
    var s1 := Next(c, s, Turn(p));
    assert s1 == s.(queue := [Message(1, 1)], phase := Readying(Message(0, 1)));
    assert Next(c, s1, Turn(q)) == Settle(c, Process(s1, Message(0, 1), Some(e)), true);
  }

  /** A poll of a failed worker that brings it no closer to its end: it is used up by a finished batch or by the elapsed
    * timer, or as many batches run as may. */
  predicate Fruitless(c: Config, s: State, p: Poll) {
    (s.running > 0 && p.batchResult.Some?) || (s.timer && p.timerElapsed) || s.running == c.maxConcurrent
  }

  /** The turns that a failed worker still needs: one for each queued request and one to return. */
  ghost function TurnsLeft(s: State): nat {
    if s.task.Running? then |s.queue| + 1 else 0
  }

  ghost predicate HasFailed(c: Config, s: State) {
    Inv(c, s) && s.failed.Some? && c.maxConcurrent >= 1
  }

  lemma {:induction false} FailedStep(c: Config, s: State, p: Poll)
    requires HasFailed(c, s) && s.task.Running?
    ensures Step(c, s, p) ==
            if s.running > 0 && p.batchResult.Some? then s.(running := s.running - 1)
            else if Fruitless(c, s, p) then s
            else if s.queue != [] then Receive(c, s)
            else Exit(s, Returned)
  {
    assert s.sharedError.Some? && s.closed && Bounded(c, s) && s.phase.Selecting?;
    hide Inv, Receive, Exit;
  }

  /** A turn of a failed worker answers the first queued request, or returns if there is none, exactly if
    * it is not fruitless. A turn in which no batch finishes changes nothing exactly if it is fruitless. */
  lemma {:induction false} FailedTurn(c: Config, s: State, p: Poll)
    requires HasFailed(c, s) && s.task.Running?
    ensures var s' := Step(c, s, p);
            && HasFailed(c, s')
            && (s.queue != [] ==> (s.queue[0].id in s'.answers <==> !Fruitless(c, s, p)))
            && (s.queue == [] ==> (s'.task.Returned? <==> !Fruitless(c, s, p)))
            && (p.batchResult.None? ==> (s' == s <==> Fruitless(c, s, p)))
            && TurnsLeft(s') == TurnsLeft(s) - if Fruitless(c, s, p) then 0 else 1
  {
    StepKeepsInv(c, s, p);
    FailedStep(c, s, p);
    assert s.phase.Selecting?;
    if s.queue != [] {
      QueuedInFlight(s, 0);
      ReceiveLeaves(c, s);
    }
    hide Inv, Step, RepliedAll, Receive;
  }

  /** The number of turns that a worker takes in a run and that are not fruitless. */
  ghost function BusyTurns(c: Config, s: State, es: seq<Event>): nat {
    if es == [] then 0
    else
      BusyTurns(c, s, es[..|es| - 1]) +
      if IsBusy(c, After(c, s, es[..|es| - 1]), es[|es| - 1]) then 1 else 0
  }

  ghost predicate IsBusy(c: Config, s: State, e: Event) {
    e.Turn? && s.task.Running? && !s.aborted && !Fruitless(c, s, e.poll)
  }

  lemma {:induction false} FailedEvent(c: Config, s: State, e: Event)
    requires HasFailed(c, s) && !e.DropWorker?
    ensures var s' := Next(c, s, e);
            HasFailed(c, s') && TurnsLeft(s') == TurnsLeft(s) - if IsBusy(c, s, e) then 1 else 0
  {
    if s.aborted {
    } else if e.Turn? {
      if s.task.Running? {
        FailedTurn(c, s, e.poll);
        hide HasFailed, Step;
      }
    } else {
      NextKeeps(c, s, e);
      assert s.closed;
      hide Inv;
    }
  }

  lemma {:induction false} FailedRun(c: Config, s: State, es: seq<Event>)
    requires HasFailed(c, s) && !HasDrop(es)
    ensures HasFailed(c, After(c, s, es))
    ensures TurnsLeft(After(c, s, es)) + BusyTurns(c, s, es) == TurnsLeft(s)
  {
    if es == [] {
    } else {
      HasDropLast(es);
      FailedRun(c, s, es[..|es| - 1]);
      hide HasFailed, Next, HasDrop, TurnsLeft, IsBusy;
      FailedEvent(c, After(c, s, es[..|es| - 1]), es[|es| - 1]);
    }
  }

  /** Whatever happens short of dropping it, a failed worker with `n` queued requests answers them all and
    * returns, exactly if `n + 1` of its turns are not fruitless. */
  lemma {:induction false} FailedWorkerDrains(c: Config, s: State, es: seq<Event>)
    requires HasFailed(c, s) && s.task.Running? && !HasDrop(es)
    ensures var s' := After(c, s, es);
            && (s'.task.Returned? <==> BusyTurns(c, s, es) == |s.queue| + 1)
            && (s'.task.Returned? ==> s'.queue == [] && s'.answers.Keys == s'.sent.Keys)
  {
    FailedRun(c, s, es);
    NotCancelled(c, s, es);
    var s' := After(c, s, es);
    if s'.task.Returned? {
      GoneRespondsToAll(c, s', 0, 0);
    }
    hide After, BusyTurns, Accounted, Weight, Fits;
  }

  lemma {:induction false} NotCancelled(c: Config, s: State, es: seq<Event>)
    requires Inv(c, s) && !s.task.Cancelled? && !HasDrop(es)
    ensures Inv(c, After(c, s, es)) && !After(c, s, es).task.Cancelled?
  {
    if es == [] {
    } else {
      HasDropLast(es);
      var before, e := After(c, s, es[..|es| - 1]), es[|es| - 1];
      NotCancelled(c, s, es[..|es| - 1]);
      NextKeeps(c, before, e);
      hide Inv;
      if !before.aborted {
        EventEffect(c, before, e);
      }
    }
  }

  /** As long as the timer stays elapsed and no batch finishes, a failed worker with a timer spins. */
  lemma {:induction false} FailedWorkerSpins(c: Config, s: State, es: seq<Event>)
    requires Inv(c, s) && s.failed.Some? && s.timer
    requires forall i :: 0 <= i < |es| ==> es[i].Turn? && es[i].poll.timerElapsed && es[i].poll.batchResult.None?
    ensures After(c, s, es) == s
  {
    if es == [] {
    } else {
      FailedWorkerSpins(c, s, es[..|es| - 1]);
      assert es[|es| - 1].Turn? && s.phase.Selecting?;
      hide Inv, Receive, Exit;
    }
  }
}
