// The coalescing protocol: callers, dispatcher, batch goroutines, semaphore, timer and shutdown
// (sidecars/latencypredictorasync/coalescer.go:53-123, 229-249 and latencypredictor_async.go:57-76).
module CoalescerProtocol {
  import opened Wrappers
  import opened Sequences
  import opened Coalescer

  const CHANNEL_CAPACITY := 1024

  /** MaxConcurrentDispatches, MaxCoalescedRows (0: no cap) and MaxBulkSize. */
  datatype Config = Config(maxDispatches: nat, rowCap: nat, maxBulk: nat)

  // ---- The dispatcher's own variables ----

  datatype Queue = Queue(pending: seq<Submission>, totalRows: nat, timerArmed: bool)

  const EMPTY_QUEUE := Queue([], 0, false)

  function Accept(q: Queue, sub: Submission): Queue {
    Queue(q.pending + [sub], q.totalRows + |sub.rows|, true)
  }

  predicate CapReached(cfg: Config, q: Queue) {
    cfg.rowCap > 0 && q.totalRows >= cfg.rowCap
  }

  // ---- The whole system ----

  datatype Stage =
    | Waiting                                // for a semaphore slot
    | Calling                                // slot held, HTTP call under way
    | Replying(http: HttpResult, next: nat)  // slot held, results being sent
    | Aborting(next: nat)                    // shutdown seen before a slot
    | Finished

  datatype Worker = Worker(batch: seq<Submission>, stage: Stage)

  datatype Dispatcher = Selecting | Rejecting(next: nat) | Exited

  datatype Reply = Reply(sub: Submission, result: BatchResult)

  datatype State = State(
    closed: bool,                // p.done
    channel: seq<Submission>,    // p.coalesceCh
    dispatcher: Dispatcher,
    queue: Queue,
    workers: seq<Worker>,
    freeSlots: nat,              // tokens in p.dispatchSem
    received: seq<Submission>,   // every submission the dispatcher has taken from the channel
    replies: seq<Reply>)         // every result sent on a result channel

  function Initial(cfg: Config): State {
    State(false, [], Selecting, EMPTY_QUEUE, [], cfg.maxDispatches, [], [])
  }

  datatype Step =
    | Submit(sub: Submission)
    | Receive
    | TimerFires
    | Close
    | ShutDown
    | RejectNext
    | DispatcherExits
    | Acquire(w: nat)
    | Abort(w: nat)
    | AbortNext(w: nat)
    | AbortDone(w: nat)
    | Respond(w: nat, answer: HttpResult)
    | ReplyNext(w: nat)
    | Release(w: nat)

  predicate At(s: State, w: nat) {
    w < |s.workers|
  }

  predicate Enabled(cfg: Config, s: State, t: Step) {
    match t
    case Submit(sub) =>
      && |s.channel| < CHANNEL_CAPACITY && 1 <= |sub.rows| <= cfg.maxBulk
      && (forall x :: x in s.received + s.channel ==> x.id != sub.id)
    case Receive => s.dispatcher.Selecting? && s.channel != []
    case TimerFires => s.dispatcher.Selecting? && s.queue.timerArmed
    case Close => !s.closed
    case ShutDown => s.dispatcher.Selecting? && s.closed
    case RejectNext => s.dispatcher.Rejecting? && s.dispatcher.next < |s.queue.pending|
    case DispatcherExits => s.dispatcher.Rejecting? && s.dispatcher.next >= |s.queue.pending|
    case Acquire(w) => At(s, w) && s.workers[w].stage.Waiting? && s.freeSlots > 0
    case Abort(w) => At(s, w) && s.workers[w].stage.Waiting? && s.closed
    case AbortNext(w) => At(s, w) && s.workers[w].stage.Aborting? && s.workers[w].stage.next < |s.workers[w].batch|
    case AbortDone(w) => At(s, w) && s.workers[w].stage.Aborting? && s.workers[w].stage.next >= |s.workers[w].batch|
    case Respond(w, _) => At(s, w) && s.workers[w].stage.Calling?
    case ReplyNext(w) => At(s, w) && s.workers[w].stage.Replying? && s.workers[w].stage.next < |s.workers[w].batch|
    case Release(w) => At(s, w) && s.workers[w].stage.Replying? && s.workers[w].stage.next >= |s.workers[w].batch|
  }

  /** The dispatch closure: the pending submissions become a batch with a goroutine of its own. */
  function Dispatch(s: State): State {
    if s.queue.pending == [] then s.(queue := EMPTY_QUEUE)
    else s.(queue := EMPTY_QUEUE, workers := s.workers + [Worker(s.queue.pending, Waiting)])
  }

  function SetStage(s: State, w: nat, stage: Stage): State
    requires At(s, w)
  {
    s.(workers := s.workers[w := s.workers[w].(stage := stage)])
  }

  function SendReply(s: State, sub: Submission, result: BatchResult): State {
    s.(replies := s.replies + [Reply(sub, result)])
  }

  function Apply(cfg: Config, s: State, t: Step): State
    requires Enabled(cfg, s, t)
  {
    match t
    case Submit(sub) => s.(channel := s.channel + [sub])
    case Receive =>
      var r := s.(channel := s.channel[1..], queue := Accept(s.queue, s.channel[0]),
                  received := s.received + [s.channel[0]]);
      if CapReached(cfg, r.queue) then Dispatch(r) else r
    case TimerFires => Dispatch(s)
    case Close => s.(closed := true)
    case ShutDown => s.(dispatcher := Rejecting(0), queue := s.queue.(timerArmed := false))
    case RejectNext =>
      SendReply(s, s.queue.pending[s.dispatcher.next], ShuttingDown).(dispatcher := Rejecting(s.dispatcher.next + 1))
    case DispatcherExits => s.(dispatcher := Exited, queue := EMPTY_QUEUE)
    case Acquire(w) => SetStage(s, w, Calling).(freeSlots := s.freeSlots - 1)
    case Abort(w) => SetStage(s, w, Aborting(0))
    case AbortNext(w) =>
      var k := s.workers[w].stage.next;
      SendReply(SetStage(s, w, Aborting(k + 1)), s.workers[w].batch[k], ShuttingDown)
    case AbortDone(w) => SetStage(s, w, Finished)
    case Respond(w, answer) => SetStage(s, w, Replying(answer, 0))
    case ReplyNext(w) =>
      var Worker(batch, Replying(http, k)) := s.workers[w];
      SendReply(SetStage(s, w, Replying(http, k + 1)), batch[k], ReplyFor(batch, k, http))
    case Release(w) => SetStage(s, w, Finished).(freeSlots := s.freeSlots + 1)
  }

  /** The state after the steps of `run`, if each was enabled in its turn. */
  function After(cfg: Config, run: seq<Step>): Option<State> {
    if run == [] then Some(Initial(cfg))
    else
      match After(cfg, run[..|run| - 1])
      case None => None
      case Some(r) => if Enabled(cfg, r, run[|run| - 1]) then Some(Apply(cfg, r, run[|run| - 1])) else None
  }

  // ---- Where a submission can be ----

  predicate InFlight(stage: Stage) {
    stage.Calling? || stage.Replying?
  }

  /** The members of a worker's batch that have no result yet. */
  function Unanswered(w: Worker): seq<Submission> {
    match w.stage
    case Waiting => w.batch
    case Calling => w.batch
    case Replying(_, k) => if k <= |w.batch| then w.batch[k..] else []
    case Aborting(k) => if k <= |w.batch| then w.batch[k..] else []
    case Finished => []
  }

  /** `x` among the unanswered members of a batch that holds a slot (`holding`) or does not. */
  function Share(w: Worker, holding: bool, x: Submission): nat {
    if InFlight(w.stage) == holding then Occ(Unanswered(w), x) else 0
  }

  function InBatches(ws: seq<Worker>, holding: bool, x: Submission): nat {
    if ws == [] then 0 else InBatches(ws[..|ws| - 1], holding, x) + Share(ws[|ws| - 1], holding, x)
  }

  function InPending(s: State, x: Submission): nat {
    match s.dispatcher
    case Selecting => Occ(s.queue.pending, x)
    case Rejecting(k) => if k <= |s.queue.pending| then Occ(s.queue.pending[k..], x) else 0
    case Exited => 0
  }

  function InWaiting(s: State, x: Submission): nat { InBatches(s.workers, false, x) }

  function InCall(s: State, x: Submission): nat { InBatches(s.workers, true, x) }

  /** How many results were sent on the result channel of `x`. */
  function ResultsSent(replies: seq<Reply>, x: Submission): nat {
    if replies == [] then 0
    else ResultsSent(replies[..|replies| - 1], x) + if replies[|replies| - 1].sub == x then 1 else 0
  }

  // ---- The invariant ----

  function Holds(w: Worker): nat { if InFlight(w.stage) then 1 else 0 }

  function SlotsHeld(ws: seq<Worker>): nat {
    if ws == [] then 0 else SlotsHeld(ws[..|ws| - 1]) + Holds(ws[|ws| - 1])
  }

  ghost predicate DistinctIds(subs: seq<Submission>) {
    forall i, j :: 0 <= i < j < |subs| ==> subs[i].id != subs[j].id
  }

  predicate WorkerOk(cfg: Config, w: Worker) {
    && w.batch != []
    && (w.stage.Replying? ==> w.stage.next <= |w.batch|)
    && (w.stage.Aborting? ==> w.stage.next <= |w.batch|)
    && (cfg.rowCap > 0 ==> RowCount(w.batch) <= cfg.rowCap - 1 + cfg.maxBulk)
  }

  predicate WorkersOk(cfg: Config, ws: seq<Worker>) {
    forall w :: w in ws ==> WorkerOk(cfg, w)
  }

  /** The timer is armed exactly when something is pending, and the pending rows are below the cap. */
  predicate QueueOk(cfg: Config, s: State) {
    && (s.dispatcher.Selecting? ==>
          && (s.queue.timerArmed <==> s.queue.pending != [])
          && s.queue.totalRows == RowCount(s.queue.pending)
          && (cfg.rowCap > 0 ==> s.queue.totalRows < cfg.rowCap))
    && (s.dispatcher.Rejecting? ==> s.dispatcher.next <= |s.queue.pending| && s.closed)
  }

  predicate ChannelOk(cfg: Config, s: State) {
    |s.channel| <= CHANNEL_CAPACITY && forall x :: x in s.channel ==> |x.rows| <= cfg.maxBulk
  }

  /** A received submission is in as many places as it was received. */
  ghost predicate Ledger(s: State) {
    forall x :: Occ(s.received, x) == Places(s, x)
  }

  function Places(s: State, x: Submission): nat {
    InPending(s, x) + InWaiting(s, x) + InCall(s, x) + ResultsSent(s.replies, x)
  }

  ghost predicate Inv(cfg: Config, s: State) {
    && QueueOk(cfg, s) && WorkersOk(cfg, s.workers) && ChannelOk(cfg, s)
    && s.freeSlots + SlotsHeld(s.workers) == cfg.maxDispatches
    && DistinctIds(s.received + s.channel)
    && Ledger(s)
  }

  lemma OccSuffix(batch: seq<Submission>, k: nat, x: Submission)
    requires k < |batch|
    ensures Occ(batch[k..], x) == Occ(batch[k + 1..], x) + if batch[k] == x then 1 else 0
  {
    assert batch[k..] == [batch[k]] + batch[k + 1..];
    OccConcat([batch[k]], batch[k + 1..], x);
    OccOne(batch[k], x);
  }

  lemma ResultsSentSnoc(replies: seq<Reply>, r: Reply, x: Submission)
    ensures ResultsSent(replies + [r], x) == ResultsSent(replies, x) + if r.sub == x then 1 else 0
  {
    assert (replies + [r])[..|replies|] == replies;
  }

  lemma BatchesSnoc(ws: seq<Worker>, w: Worker, x: Submission)
    ensures forall holding :: InBatches(ws + [w], holding, x) == InBatches(ws, holding, x) + Share(w, holding, x)
    ensures SlotsHeld(ws + [w]) == SlotsHeld(ws) + Holds(w)
  {
    assert (ws + [w])[..|ws|] == ws;
  }

  /** Changing one worker changes the totals by the difference of its shares. */
  lemma {:induction false} BatchesUpdate(ws: seq<Worker>, i: nat, w: Worker, x: Submission)
    requires i < |ws|
    ensures forall h :: InBatches(ws[i := w], h, x) == InBatches(ws, h, x) - Share(ws[i], h, x) + Share(w, h, x)
    ensures SlotsHeld(ws[i := w]) == SlotsHeld(ws) - Holds(ws[i]) + Holds(w)
    decreases |ws|
  {
    var n := |ws| - 1;
    var us := ws[i := w];
    if i == n {
      assert us[..n] == ws[..n];
    } else {
      assert us[..n] == ws[..n][i := w] && us[n] == ws[n];
      BatchesUpdate(ws[..n], i, w, x);
    }
  }

  lemma WorkerPlaces(s: State, i: nat, u: Worker, sent: seq<Reply>, x: Submission)
    requires i < |s.workers| && |sent| <= 1
    requires Occ(Unanswered(s.workers[i]), x) == Occ(Unanswered(u), x) + ResultsSent(sent, x)
    ensures Places(s.(workers := s.workers[i := u], replies := s.replies + sent), x) == Places(s, x)
  {
    var t := s.(workers := s.workers[i := u], replies := s.replies + sent);
    assert ResultsSent(t.replies, x) == ResultsSent(s.replies, x) + ResultsSent(sent, x) by {
      if |sent| == 1 {
        assert sent == [] + [sent[0]];
        ResultsSentSnoc([], sent[0], x);
        ResultsSentSnoc(s.replies, sent[0], x);
      } else {
        assert sent == [] && s.replies + sent == s.replies;
      }
    }
    BatchesUpdate(s.workers, i, u, x);
    assert Share(s.workers[i], true, x) + Share(s.workers[i], false, x) == Occ(Unanswered(s.workers[i]), x);
    assert Share(u, true, x) + Share(u, false, x) == Occ(Unanswered(u), x);
    assert InPending(t, x) == InPending(s, x);
  }

  /** A worker's step keeps the ledger when what leaves its share is exactly what is answered. */
  lemma WorkerStep(cfg: Config, s: State, i: nat, u: Worker, free: nat, sent: seq<Reply>)
    requires Inv(cfg, s) && i < |s.workers| && WorkerOk(cfg, u) && |sent| <= 1
    requires forall x :: Occ(Unanswered(s.workers[i]), x) == Occ(Unanswered(u), x) + ResultsSent(sent, x)
    requires free + Holds(u) == s.freeSlots + Holds(s.workers[i])
    ensures Inv(cfg, s.(workers := s.workers[i := u], freeSlots := free, replies := s.replies + sent))
  {
    hide WorkerOk, DistinctIds, SlotsHeld, Holds, RowCount, Ledger, Occ, Unanswered, ResultsSent;
    BatchesUpdate(s.workers, i, u, Submission(0, []));
    WorkerLedger(s, i, u, free, sent);
  }

  lemma WorkerLedger(s: State, i: nat, u: Worker, free: nat, sent: seq<Reply>)
    requires Ledger(s) && i < |s.workers| && |sent| <= 1
    requires forall x :: Occ(Unanswered(s.workers[i]), x) == Occ(Unanswered(u), x) + ResultsSent(sent, x)
    ensures Ledger(s.(workers := s.workers[i := u], freeSlots := free, replies := s.replies + sent))
  {
    hide Occ, Unanswered, ResultsSent, InBatches, InPending;
    var mid := s.(workers := s.workers[i := u], replies := s.replies + sent);
    var t := mid.(freeSlots := free);
    forall x
      ensures Occ(t.received, x) == Places(t, x)
    {
      WorkerPlaces(s, i, u, sent, x);
      SlotsElsewhere(mid, free, x);
    }
  }

  lemma SlotsElsewhere(s: State, free: nat, x: Submission)
    ensures Places(s.(freeSlots := free), x) == Places(s, x)
  {
  }

  lemma SilentStep(cfg: Config, s: State, t: Step)
    requires Inv(cfg, s) && Enabled(cfg, s, t)
    requires t.Acquire? || t.Abort? || t.AbortDone? || t.Respond? || t.Release?
    ensures Inv(cfg, Apply(cfg, s, t))
  {
    hide Ledger, SlotsHeld, DistinctIds, QueueOk, ChannelOk, RowCount;
    var w, s' := s.workers[t.w], Apply(cfg, s, t);
    var u := s'.workers[t.w];
    assert WorkerOk(cfg, w);
    assert w.batch[0..] == w.batch && w.batch[|w.batch|..] == [];
    assert Unanswered(w) == Unanswered(u) && s.replies + [] == s.replies;
    forall x
      ensures Occ(Unanswered(w), x) == Occ(Unanswered(u), x) + ResultsSent([], x)
    {
    }
    WorkerStep(cfg, s, t.w, u, s'.freeSlots, []);
  }

  /** The worker after one more of its callers has been answered, and that answer. */
  function Advanced(w: Worker): Worker
    requires w.stage.Replying? || w.stage.Aborting?
  {
    w.(stage := if w.stage.Replying? then Replying(w.stage.http, w.stage.next + 1) else Aborting(w.stage.next + 1))
  }

  function NextReply(w: Worker): Reply
    requires (w.stage.Replying? || w.stage.Aborting?) && w.stage.next < |w.batch|
  {
    var k := w.stage.next;
    Reply(w.batch[k], if w.stage.Replying? then ReplyFor(w.batch, k, w.stage.http) else ShuttingDown)
  }

  lemma AnswerEffect(cfg: Config, s: State, t: Step)
    requires Enabled(cfg, s, t) && (t.AbortNext? || t.ReplyNext?) && WorkerOk(cfg, s.workers[t.w])
    ensures var w := s.workers[t.w];
            && Apply(cfg, s, t) == s.(workers := s.workers[t.w := Advanced(w)], replies := s.replies + [NextReply(w)])
            && WorkerOk(cfg, Advanced(w)) && Holds(Advanced(w)) == Holds(w)
            && Unanswered(w) == w.batch[w.stage.next..] && Unanswered(Advanced(w)) == w.batch[w.stage.next + 1..]
  {
    hide RowCount, ReplyFor;
    if t.AbortNext? {
      AbortEffect(cfg, s, t.w);
    } else {
      ReplyEffect(cfg, s, t.w);
    }
    AdvancedWorker(cfg, s.workers[t.w]);
  }

  lemma AbortEffect(cfg: Config, s: State, i: nat)
    requires Enabled(cfg, s, AbortNext(i))
    ensures var w := s.workers[i];
            Apply(cfg, s, AbortNext(i))
            == s.(workers := s.workers[i := Advanced(w)], replies := s.replies + [NextReply(w)])
  {
    hide ReplyFor;
  }

  lemma ReplyEffect(cfg: Config, s: State, i: nat)
    requires Enabled(cfg, s, ReplyNext(i))
    ensures var w := s.workers[i];
            Apply(cfg, s, ReplyNext(i))
            == s.(workers := s.workers[i := Advanced(w)], replies := s.replies + [NextReply(w)])
  {
    hide ReplyFor;
  }

  lemma AdvancedWorker(cfg: Config, w: Worker)
    requires WorkerOk(cfg, w) && (w.stage.Aborting? || w.stage.Replying?) && w.stage.next < |w.batch|
    ensures WorkerOk(cfg, Advanced(w)) && Holds(Advanced(w)) == Holds(w)
    ensures Unanswered(w) == w.batch[w.stage.next..] && Unanswered(Advanced(w)) == w.batch[w.stage.next + 1..]
  {
    hide RowCount;
  }

  lemma AnsweringStep(cfg: Config, s: State, t: Step)
    requires Inv(cfg, s) && Enabled(cfg, s, t) && (t.AbortNext? || t.ReplyNext?)
    ensures Inv(cfg, Apply(cfg, s, t))
  {
    hide Ledger, SlotsHeld, DistinctIds, QueueOk, ChannelOk, WorkerOk;
    var w := s.workers[t.w];
    AnswerEffect(cfg, s, t);
    var k, u, r := w.stage.next, Advanced(w), NextReply(w);
    forall x
      ensures Occ(Unanswered(w), x) == Occ(Unanswered(u), x) + ResultsSent([r], x)
    {
      OccSuffix(w.batch, k, x);
      assert [] + [r] == [r];
      ResultsSentSnoc([], r, x);
    }
    WorkerStep(cfg, s, t.w, u, s.freeSlots, [r]);
  }

  // ---- The dispatcher's steps ----

  lemma DispatchPlaces(s: State, x: Submission)
    requires s.dispatcher.Selecting?
    ensures Places(Dispatch(s), x) == Places(s, x)
  {
    var batch := Worker(s.queue.pending, Waiting);
    BatchesSnoc(s.workers, batch, x);
    assert Share(batch, false, x) == Occ(s.queue.pending, x) && Share(batch, true, x) == 0 && Occ([], x) == 0;
  }

  lemma WorkersOkSnoc(cfg: Config, ws: seq<Worker>, w: Worker)
    requires WorkersOk(cfg, ws) && WorkerOk(cfg, w)
    ensures WorkersOk(cfg, ws + [w])
  {
  }

  /** Handing the pending submissions to a new goroutine keeps the ledger. */
  lemma DispatchStep(cfg: Config, s: State)
    requires s.dispatcher.Selecting? && WorkersOk(cfg, s.workers) && ChannelOk(cfg, s)
    requires s.freeSlots + SlotsHeld(s.workers) == cfg.maxDispatches && DistinctIds(s.received + s.channel) && Ledger(s)
    requires cfg.rowCap > 0 ==> RowCount(s.queue.pending) <= cfg.rowCap - 1 + cfg.maxBulk
    ensures Inv(cfg, Dispatch(s))
  {
    var t, batch := Dispatch(s), Worker(s.queue.pending, Waiting);
    assert RowCount([]) == 0;
    if s.queue.pending != [] {
      WorkersOkSnoc(cfg, s.workers, batch);
    }
    assert SlotsHeld(s.workers + [batch]) == SlotsHeld(s.workers) by {
      BatchesSnoc(s.workers, batch, Submission(0, []));
    }
    forall x
      ensures Occ(t.received, x) == Places(t, x)
    {
      DispatchPlaces(s, x);
    }
  }

  lemma ReceivePlaces(cfg: Config, s: State, r: State, x: Submission)
    requires s.dispatcher.Selecting? && s.channel != []
    requires r == s.(channel := s.channel[1..], queue := Accept(s.queue, s.channel[0]),
                      received := s.received + [s.channel[0]])
    ensures Occ(r.received, x) - Places(r, x) == Occ(s.received, x) - Places(s, x)
  {
    OccSnoc(s.received, s.channel[0], x);
    OccSnoc(s.queue.pending, s.channel[0], x);
  }

  lemma ReceiveStep(cfg: Config, s: State)
    requires Inv(cfg, s) && Enabled(cfg, s, Receive)
    ensures Inv(cfg, Apply(cfg, s, Receive))
  {
    var sub := s.channel[0];
    var r := s.(channel := s.channel[1..], queue := Accept(s.queue, sub), received := s.received + [sub]);
    assert r.received + r.channel == s.received + s.channel;
    MergeSnoc(s.queue.pending, sub);
    assert |sub.rows| <= cfg.maxBulk;
    forall x
      ensures Occ(r.received, x) == Places(r, x)
    {
      ReceivePlaces(cfg, s, r, x);
    }
    if CapReached(cfg, r.queue) {
      DispatchStep(cfg, r);
    }
  }

  lemma RejectPlaces(cfg: Config, s: State, x: Submission)
    requires Enabled(cfg, s, RejectNext)
    ensures Places(Apply(cfg, s, RejectNext), x) == Places(s, x)
  {
    var k := s.dispatcher.next;
    OccSuffix(s.queue.pending, k, x);
    ResultsSentSnoc(s.replies, Reply(s.queue.pending[k], ShuttingDown), x);
  }

  lemma RejectStep(cfg: Config, s: State)
    requires Inv(cfg, s) && Enabled(cfg, s, RejectNext)
    ensures Inv(cfg, Apply(cfg, s, RejectNext))
  {
    hide Occ, Places, RowCount, DistinctIds, SlotsHeld;
    var t := Apply(cfg, s, RejectNext);
    forall x
      ensures Occ(t.received, x) == Places(t, x)
    {
      RejectPlaces(cfg, s, x);
    }
  }

  lemma ShutdownSteps(cfg: Config, s: State, t: Step)
    requires Inv(cfg, s) && Enabled(cfg, s, t) && (t.ShutDown? || t.DispatcherExits? || t.Close? || t.Submit?)
    ensures Inv(cfg, Apply(cfg, s, t))
  {
    var s' := Apply(cfg, s, t);
    forall x
      ensures Places(s', x) == Places(s, x)
    {
      assert s.queue.pending[0..] == s.queue.pending && s.queue.pending[|s.queue.pending|..] == [];
    }
    if t.Submit? {
      DistinctSnoc(s.received + s.channel, t.sub);
      assert s'.received + s'.channel == (s.received + s.channel) + [t.sub];
    }
    assert Ledger(s');
  }

  lemma DistinctSnoc(subs: seq<Submission>, y: Submission)
    requires DistinctIds(subs) && forall x :: x in subs ==> x.id != y.id
    ensures DistinctIds(subs + [y])
  {
  }

  lemma StepKeepsInv(cfg: Config, s: State, t: Step)
    requires Inv(cfg, s) && Enabled(cfg, s, t)
    ensures Inv(cfg, Apply(cfg, s, t))
  {
    match t
    case Receive => ReceiveStep(cfg, s);
    case TimerFires =>
      assert cfg.rowCap > 0 ==> RowCount(s.queue.pending) <= cfg.rowCap - 1 + cfg.maxBulk;
      DispatchStep(cfg, s);
    case RejectNext => RejectStep(cfg, s);
    case AbortNext(_) => AnsweringStep(cfg, s, t);
    case ReplyNext(_) => AnsweringStep(cfg, s, t);
    case Acquire(_) => SilentStep(cfg, s, t);
    case Abort(_) => SilentStep(cfg, s, t);
    case AbortDone(_) => SilentStep(cfg, s, t);
    case Respond(_, _) => SilentStep(cfg, s, t);
    case Release(_) => SilentStep(cfg, s, t);
    case Submit(_) => ShutdownSteps(cfg, s, t);
    case Close => ShutdownSteps(cfg, s, t);
    case ShutDown => ShutdownSteps(cfg, s, t);
    case DispatcherExits => ShutdownSteps(cfg, s, t);
  }

  /** Every interleaving of callers, timer, goroutines and shutdown keeps the invariant. */
  lemma {:induction false} RunInv(cfg: Config, run: seq<Step>)
    requires After(cfg, run).Some?
    ensures Inv(cfg, After(cfg, run).value)
    decreases |run|
  {
    if run == [] {
      assert RowCount([]) == 0;
    } else {
      RunInv(cfg, run[..|run| - 1]);
      StepKeepsInv(cfg, After(cfg, run[..|run| - 1]).value, run[|run| - 1]);
    }
  }
}
