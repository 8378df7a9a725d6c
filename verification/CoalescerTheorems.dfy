// What the coalescing protocol guarantees over every interleaving.
module CoalescerTheorems {
  import opened Wrappers
  import opened Sequences
  import opened Coalescer
  import opened CoalescerProtocol

  // ---- Exactly one place ----

  lemma {:induction false} OccDistinct(subs: seq<Submission>, x: Submission)
    requires DistinctIds(subs)
    ensures Occ(subs, x) == if x in subs then 1 else 0
    decreases |subs|
  {
    if subs != [] {
      var front, last := subs[..|subs| - 1], subs[|subs| - 1];
      OccDistinct(front, x);
      assert x in subs <==> x == last || x in front;
      assert forall y :: y in front ==> y.id != last.id;
    }
  }

  lemma DistinctPrefix(a: seq<Submission>, b: seq<Submission>)
    requires DistinctIds(a + b)
    ensures DistinctIds(a)
    ensures forall x :: x in b ==> x !in a
  {
    forall i, j | 0 <= i < j < |a|
      ensures a[i].id != a[j].id
    {
      assert (a + b)[i] == a[i] && (a + b)[j] == a[j];
    }
    forall x | x in b
      ensures x !in a
    {
      var j :| 0 <= j < |b| && b[j] == x;
      assert (a + b)[|a| + j] == x;
      assert forall i :: 0 <= i < |a| ==> (a + b)[i] == a[i];
    }
  }

  lemma ReceivedOnce(cfg: Config, s: State, x: Submission)
    requires Inv(cfg, s)
    ensures Places(s, x) == if x in s.received then 1 else 0
  {
    assert Occ(s.received, x) == Places(s, x);
    DistinctPrefix(s.received, s.channel);
    OccDistinct(s.received, x);
  }

  /** Over every run, a submission the dispatcher received is pending, waiting, in flight or answered, in
      exactly one of these, and an answered one got exactly one result; one it never received got none. */
  lemma ExactlyOnePlace(cfg: Config, run: seq<Step>, x: Submission)
    requires After(cfg, run).Some?
    ensures var s := After(cfg, run).value;
            InPending(s, x) + InWaiting(s, x) + InCall(s, x) + ResultsSent(s.replies, x)
            == if x in s.received then 1 else 0
  {
    RunInv(cfg, run);
    var s := After(cfg, run).value;
    ReceivedOnce(cfg, s, x);
  }

  /** The submission whose result channel the step writes to. */
  function Addressee(s: State, t: Step): Option<Submission> {
    match t
    case RejectNext =>
      if s.dispatcher.Rejecting? && s.dispatcher.next < |s.queue.pending|
      then Some(s.queue.pending[s.dispatcher.next]) else None
    case AbortNext(w) =>
      if At(s, w) && s.workers[w].stage.Aborting? && s.workers[w].stage.next < |s.workers[w].batch| then
        Some(s.workers[w].batch[s.workers[w].stage.next]) else None
    case ReplyNext(w) =>
      if At(s, w) && s.workers[w].stage.Replying? && s.workers[w].stage.next < |s.workers[w].batch| then
        Some(s.workers[w].batch[s.workers[w].stage.next]) else None
    case _ => None
  }

  lemma {:induction false} ShareWithin(ws: seq<Worker>, i: nat, x: Submission)
    requires i < |ws|
    ensures InBatches(ws, true, x) + InBatches(ws, false, x) >= Share(ws[i], true, x) + Share(ws[i], false, x)
    decreases |ws|
  {
    if i < |ws| - 1 {
      ShareWithin(ws[..|ws| - 1], i, x);
    }
  }

  /** A result is only ever sent on a channel that has not been sent to: with a buffer of one, no send blocks. */
  lemma SendNeverBlocks(cfg: Config, run: seq<Step>, t: Step)
    requires After(cfg, run).Some? && Enabled(cfg, After(cfg, run).value, t)
    requires Addressee(After(cfg, run).value, t).Some?
    ensures ResultsSent(After(cfg, run).value.replies, Addressee(After(cfg, run).value, t).value) == 0
  {
    RunInv(cfg, run);
    var s := After(cfg, run).value;
    var x := Addressee(s, t).value;
    if t.RejectNext? {
      OccMember(s.queue.pending[s.dispatcher.next..], s.queue.pending[s.dispatcher.next]);
      assert InPending(s, x) >= 1;
    } else {
      var w := s.workers[t.w];
      OccMember(w.batch[w.stage.next..], w.batch[w.stage.next]);
      assert Share(w, true, x) + Share(w, false, x) >= 1;
      ShareWithin(s.workers, t.w, x);
    }
    ReceivedOnce(cfg, s, x);
  }

  predicate IsNew(s: State, sub: Submission) { forall x :: x in s.received + s.channel ==> x.id != sub.id }

  /** In every reachable state the timer runs exactly while something is pending, the semaphore's slots are
      conserved, the channel takes up to 1024 submissions, and with a row cap no batch exceeds the cap by a whole
      submission. */
  lemma DispatcherBounds(cfg: Config, run: seq<Step>)
    requires After(cfg, run).Some?
    ensures var s := After(cfg, run).value;
            && (s.dispatcher.Selecting? ==> (s.queue.timerArmed <==> s.queue.pending != []))
            && s.freeSlots + SlotsHeld(s.workers) == cfg.maxDispatches && |s.channel| <= 1024
            && (forall sub: Submission :: IsNew(s, sub) && 1 <= |sub.rows| <= cfg.maxBulk ==>
                  (Enabled(cfg, s, Submit(sub)) <==> |s.channel| < 1024))
            && (cfg.rowCap > 0 ==> forall w :: w in s.workers ==> RowCount(w.batch) <= cfg.rowCap - 1 + cfg.maxBulk)
  {
    RunInv(cfg, run);
  }

  // ---- What the answers are ----

  /** The server predicts row by row and in order, though its response may stop short; or the call fails. */
  ghost predicate Honest(f: Row -> Prediction, batch: seq<Submission>, answer: HttpResult) {
    answer.HttpErr?
    || exists got :: 0 <= got <= RowCount(batch) && answer == HttpOk(PredictEach(f, Merge(batch))[..got])
  }

  ghost predicate HonestRun(cfg: Config, f: Row -> Prediction, run: seq<Step>)
    requires After(cfg, run).Some?
  {
    run == [] ||
    (var t := run[|run| - 1];
     && HonestRun(cfg, f, run[..|run| - 1])
     && (t.Respond? ==> Honest(f, After(cfg, run[..|run| - 1]).value.workers[t.w].batch, t.answer)))
  }

  /** The direct call's response for the caller's own rows, or an error. */
  predicate OwnResult(f: Row -> Prediction, r: Reply) {
    r.result.Response? ==> r.result == DirectCall(f, r.sub.rows)
  }

  ghost predicate HonestState(f: Row -> Prediction, s: State) {
    && (forall w :: w in s.workers && w.stage.Replying? ==> Honest(f, w.batch, w.stage.http))
    && (forall r :: r in s.replies ==> OwnResult(f, r))
  }

  lemma HonestReply(f: Row -> Prediction, batch: seq<Submission>, k: nat, answer: HttpResult)
    requires k < |batch| && Honest(f, batch, answer)
    ensures OwnResult(f, Reply(batch[k], ReplyFor(batch, k, answer)))
  {
    if answer.HttpOk? {
      var got :| 0 <= got <= RowCount(batch) && answer == HttpOk(PredictEach(f, Merge(batch))[..got]);
      CallerGetsOwnRows(batch, k, f, got);
    }
  }

  lemma HonestStep(cfg: Config, f: Row -> Prediction, s: State, t: Step)
    requires HonestState(f, s) && Enabled(cfg, s, t)
    requires t.Respond? ==> Honest(f, s.workers[t.w].batch, t.answer)
    ensures HonestState(f, Apply(cfg, s, t))
  {
    hide Honest;
    if t.ReplyNext? {
      var w := s.workers[t.w];
      assert w in s.workers;
      HonestReply(f, w.batch, w.stage.next, w.stage.http);
    } else if t.AbortNext? || t.RejectNext? {
      assert OwnResult(f, Reply(Addressee(s, t).value, ShuttingDown));
    }
  }

  /** End to end: whatever the interleaving, every response a caller receives through the coalescer is
      exactly the one a direct call with its own rows would have returned. */
  lemma {:induction false} EveryResponseIsTheCallersOwn(cfg: Config, f: Row -> Prediction, run: seq<Step>)
    requires After(cfg, run).Some? && HonestRun(cfg, f, run)
    ensures HonestState(f, After(cfg, run).value)
    decreases |run|
  {
    if run != [] {
      EveryResponseIsTheCallersOwn(cfg, f, run[..|run| - 1]);
      HonestStep(cfg, f, After(cfg, run[..|run| - 1]).value, run[|run| - 1]);
    }
  }

  // ---- Progress ----

  /** Steps of the dispatcher and its goroutines, as opposed to arrivals and the request to stop. */
  predicate Internal(t: Step) {
    !t.Submit? && !t.Receive? && !t.Close?
  }

  function WorkerRank(w: Worker): nat {
    match w.stage
    case Waiting => 3 + |w.batch|
    case Calling => 2 + |w.batch|
    case Replying(_, k) => if k <= |w.batch| then 1 + |w.batch| - k else 1
    case Aborting(k) => if k <= |w.batch| then 1 + |w.batch| - k else 1
    case Finished => 0
  }

  function WorkersRank(ws: seq<Worker>): nat {
    if ws == [] then 0 else WorkersRank(ws[..|ws| - 1]) + WorkerRank(ws[|ws| - 1])
  }

  /** An upper bound on the internal steps still to come. */
  function Rank(s: State): nat {
    WorkersRank(s.workers) +
    match s.dispatcher
    case Selecting => if s.queue.pending == [] then 2 else 6 + |s.queue.pending|
    case Rejecting(k) => if k <= |s.queue.pending| then 1 + |s.queue.pending| - k else 1
    case Exited => 0
  }

  lemma {:induction false} RankUpdate(ws: seq<Worker>, i: nat, w: Worker)
    requires i < |ws|
    ensures WorkersRank(ws[i := w]) == WorkersRank(ws) - WorkerRank(ws[i]) + WorkerRank(w)
    decreases |ws|
  {
    var n := |ws| - 1;
    if i == n {
      assert ws[i := w][..n] == ws[..n];
    } else {
      assert ws[i := w][..n] == ws[..n][i := w];
      RankUpdate(ws[..n], i, w);
    }
  }

  lemma DispatcherStepsRunOut(cfg: Config, s: State, t: Step)
    requires Inv(cfg, s) && Enabled(cfg, s, t) && (t.TimerFires? || t.ShutDown? || t.RejectNext? || t.DispatcherExits?)
    ensures Rank(Apply(cfg, s, t)) < Rank(s)
  {
    hide Ledger, DistinctIds, SlotsHeld, RowCount, ReplyFor, WorkersOk;
    if t.TimerFires? {
      var batch := Worker(s.queue.pending, Waiting);
      assert (s.workers + [batch])[..|s.workers|] == s.workers;
    }
  }

  lemma WorkerStepsRunOut(cfg: Config, s: State, t: Step)
    requires WorkersOk(cfg, s.workers) && Enabled(cfg, s, t)
    requires t.Acquire? || t.Abort? || t.AbortNext? || t.AbortDone? || t.Respond? || t.ReplyNext? || t.Release?
    ensures Rank(Apply(cfg, s, t)) < Rank(s)
  {
    hide RowCount, ReplyFor, WorkersRank;
    var s' := Apply(cfg, s, t);
    assert WorkerOk(cfg, s.workers[t.w]);
    RankUpdate(s.workers, t.w, s'.workers[t.w]);
    assert s'.workers == s.workers[t.w := s'.workers[t.w]];
  }

  /** Every internal step uses up rank, so arrivals aside the system comes to rest. */
  lemma InternalStepsRunOut(cfg: Config, s: State, t: Step)
    requires Inv(cfg, s) && Enabled(cfg, s, t) && Internal(t)
    ensures Rank(Apply(cfg, s, t)) < Rank(s)
  {
    if t.TimerFires? || t.ShutDown? || t.RejectNext? || t.DispatcherExits? {
      DispatcherStepsRunOut(cfg, s, t);
    } else {
      WorkerStepsRunOut(cfg, s, t);
    }
  }

  lemma {:induction false} HeldMeansHolder(ws: seq<Worker>) returns (i: nat)
    requires SlotsHeld(ws) > 0
    ensures i < |ws| && InFlight(ws[i].stage)
    decreases |ws|
  {
    var n := |ws| - 1;
    if InFlight(ws[n].stage) {
      i := n;
    } else {
      i := HeldMeansHolder(ws[..n]);
    }
  }

  /** No internal step is possible. */
  ghost predicate AtRest(cfg: Config, s: State) {
    forall t :: Internal(t) ==> !Enabled(cfg, s, t)
  }

  lemma AllFinishedAtRest(cfg: Config, s: State, i: nat)
    requires Inv(cfg, s) && AtRest(cfg, s) && cfg.maxDispatches > 0 && i < |s.workers|
    ensures s.workers[i].stage.Finished?
  {
    hide Ledger, DistinctIds, RowCount;
    assert forall j: nat :: j < |s.workers| ==> !InFlight(s.workers[j].stage) by {
      forall j: nat | j < |s.workers|
        ensures !InFlight(s.workers[j].stage)
      {
        assert !Enabled(cfg, s, Respond(j, HttpErr("")));
        assert !Enabled(cfg, s, ReplyNext(j)) && !Enabled(cfg, s, Release(j));
      }
    }
    if SlotsHeld(s.workers) > 0 {
      var j := HeldMeansHolder(s.workers);
      assert false;
    }
    assert !Enabled(cfg, s, Acquire(i));
    assert !Enabled(cfg, s, AbortNext(i)) && !Enabled(cfg, s, AbortDone(i));
  }

  lemma {:induction false} NothingInFinishedBatches(ws: seq<Worker>, x: Submission)
    requires forall w :: w in ws ==> w.stage.Finished?
    ensures InBatches(ws, true, x) == 0 && InBatches(ws, false, x) == 0
    decreases |ws|
  {
    if ws != [] {
      NothingInFinishedBatches(ws[..|ws| - 1], x);
    }
  }

  /** With at least one slot nobody is left behind: when the system is at rest, every submission the
      dispatcher received has its one result. */
  lemma AtRestAllAnswered(cfg: Config, run: seq<Step>, x: Submission)
    requires cfg.maxDispatches > 0 && After(cfg, run).Some?
    requires var s := After(cfg, run).value; AtRest(cfg, s) && x in s.received
    ensures ResultsSent(After(cfg, run).value.replies, x) == 1
  {
    RunInv(cfg, run);
    var s := After(cfg, run).value;
    ReceivedOnce(cfg, s, x);
    forall w | w in s.workers
      ensures w.stage.Finished?
    {
      var i :| 0 <= i < |s.workers| && s.workers[i] == w;
      AllFinishedAtRest(cfg, s, i);
    }
    NothingInFinishedBatches(s.workers, x);
    assert InPending(s, x) == 0 by {
      assert !Enabled(cfg, s, TimerFires) && !Enabled(cfg, s, RejectNext) && !Enabled(cfg, s, DispatcherExits);
    }
  }

  // ---- What shutdown leaves behind ----

  /** Once everything is at rest after a shutdown, a submission is left without a result exactly when the dispatcher
      exited with it still in the channel; every other one has its one result. */
  lemma StrandedIff(cfg: Config, run: seq<Step>, x: Submission)
    requires cfg.maxDispatches > 0 && After(cfg, run).Some?
    requires var s := After(cfg, run).value; AtRest(cfg, s) && s.dispatcher.Exited? && x in s.received + s.channel
    ensures var s := After(cfg, run).value;
            ResultsSent(s.replies, x) == if x in s.channel then 0 else 1
  {
    RunInv(cfg, run);
    var s := After(cfg, run).value;
    ReceivedOnce(cfg, s, x);
    DistinctPrefix(s.received, s.channel);
    if x in s.received {
      AtRestAllAnswered(cfg, run, x);
    }
  }

  /** Not every submission is answered: one still in the channel when the dispatcher exits is stranded. */
  lemma ShutdownStrands(cfg: Config, sub: Submission)
    requires 1 <= |sub.rows| <= cfg.maxBulk
    ensures var run := [Submit(sub), Close, ShutDown, DispatcherExits];
            && After(cfg, run).Some?
            && After(cfg, run).value.dispatcher.Exited? && After(cfg, run).value.channel == [sub]
  {
    var s0 := Initial(cfg);
    var s1 := Apply(cfg, s0, Submit(sub));
    var s2 := Apply(cfg, s1, Close);
    var s3 := Apply(cfg, s2, ShutDown);
    var run := [Submit(sub), Close, ShutDown, DispatcherExits];
    assert run[..3][..2][..1][..0] == [];
    assert run[..3] == [Submit(sub), Close, ShutDown] && run[..3][..2] == [Submit(sub), Close]
         && run[..3][..2][..1] == [Submit(sub)];
    assert After(cfg, [Submit(sub)]) == Some(s1) by { assert [Submit(sub)][..0] == []; }
    assert After(cfg, [Submit(sub), Close]) == Some(s2);
    assert After(cfg, [Submit(sub), Close, ShutDown]) == Some(s3);
  }

  lemma ExitIsFinal(cfg: Config, s: State, t: Step, x: Submission)
    requires s.dispatcher.Exited? && Enabled(cfg, s, t) && x in s.channel
    ensures Apply(cfg, s, t).dispatcher.Exited? && x in Apply(cfg, s, t).channel
  {
    hide ReplyFor;
  }

  lemma {:induction false} ExitedStaysExited(cfg: Config, run: seq<Step>, more: seq<Step>, x: Submission)
    requires After(cfg, run).Some? && After(cfg, run + more).Some?
    requires After(cfg, run).value.dispatcher.Exited? && x in After(cfg, run).value.channel
    ensures After(cfg, run + more).value.dispatcher.Exited? && x in After(cfg, run + more).value.channel
    decreases |more|
  {
    if more == [] {
      assert run + more == run;
    } else {
      var m := |more| - 1;
      assert (run + more)[..|run + more| - 1] == run + more[..m];
      ExitedStaysExited(cfg, run, more[..m], x);
      ExitIsFinal(cfg, After(cfg, run + more[..m]).value, more[m], x);
    }
  }

  /** And stays so: after the dispatcher has exited, nothing in the channel is ever received or answered. */
  lemma StrandedForever(cfg: Config, run: seq<Step>, more: seq<Step>, x: Submission)
    requires After(cfg, run).Some? && After(cfg, run + more).Some?
    requires After(cfg, run).value.dispatcher.Exited? && x in After(cfg, run).value.channel
    ensures var s := After(cfg, run + more).value;
            s.dispatcher.Exited? && x in s.channel && x !in s.received && ResultsSent(s.replies, x) == 0
  {
    RunInv(cfg, run + more);
    ExitedStaysExited(cfg, run, more, x);
    var s := After(cfg, run + more).value;
    DistinctPrefix(s.received, s.channel);
    ReceivedOnce(cfg, s, x);
  }
}
