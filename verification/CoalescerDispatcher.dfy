// The coalescer as an object: callers, the arms of the dispatcher's select loop and the dispatch goroutines
// (sidecars/latencypredictorasync/coalescer.go), proved against the transitions of the protocol.
module CoalescerDispatcher {
  import opened Wrappers
  import opened Coalescer
  import opened CoalescerProtocol

  /** Rejecting every pending submission in turn and then returning, starting after `ShutDown`. */
  function RejectAll(cfg: Config, s: State): State
    requires s.dispatcher.Rejecting?
    decreases |s.queue.pending| - s.dispatcher.next
  {
    if Enabled(cfg, s, RejectNext) then RejectAll(cfg, Apply(cfg, s, RejectNext)) else Apply(cfg, s, DispatcherExits)
  }

  lemma RejectOne(cfg: Config, s: State)
    requires s.dispatcher.Rejecting? && s.dispatcher.next < |s.queue.pending|
    ensures RejectAll(cfg, s) == RejectAll(cfg, s.(
              dispatcher := Rejecting(s.dispatcher.next + 1),
              replies := s.replies + [Reply(s.queue.pending[s.dispatcher.next], ShuttingDown)]))
  {
  }

  lemma RejectNone(cfg: Config, s: State)
    requires s.dispatcher.Rejecting? && s.dispatcher.next == |s.queue.pending|
    ensures RejectAll(cfg, s) == Apply(cfg, s, DispatcherExits)
  {
  }

  class Predictor {
    const cfg: Config
    var closed: bool
    var channel: seq<Submission>
    var dispatcher: Dispatcher
    var pending: seq<Submission>
    var totalRows: nat
    var timerArmed: bool
    var workers: seq<Worker>
    var freeSlots: nat
    var received: seq<Submission>
    var replies: seq<Reply>

    function View(): State
      reads this
    {
      State(closed, channel, dispatcher, Queue(pending, totalRows, timerArmed), workers, freeSlots, received, replies)
    }

    constructor (cfg: Config)
      ensures this.cfg == cfg && View() == Initial(cfg)
    {
      this.cfg := cfg;
      closed, channel, dispatcher := false, [], Selecting;
      pending, totalRows, timerArmed := [], 0, false;
      workers, freeSlots := [], cfg.maxDispatches;
      received, replies := [], [];
    }

    /** The dispatch closure, once the timer is off. */
    method DispatchPending()
      requires !timerArmed
      modifies this`pending, this`totalRows, this`workers
      ensures View() == if old(pending) == [] then old(View()) else Dispatch(old(View()))
    {
      if |pending| == 0 { return; }
      var batch := pending;
      pending := [];
      totalRows := 0;
      workers := workers + [Worker(batch, Waiting)];
    }

    method OnSubmission()
      requires Enabled(cfg, View(), Receive)
      modifies this
      ensures View() == Apply(cfg, old(View()), Receive)
    {
      var sub := channel[0];
      channel := channel[1..];
      received := received + [sub];
      pending := pending + [sub];
      totalRows := totalRows + |sub.rows|;
      if !timerArmed {
        timerArmed := true;
      }
      if cfg.rowCap > 0 && totalRows >= cfg.rowCap {
        timerArmed := false;
        DispatchPending();
      }
    }

    method OnTimer()
      requires Inv(cfg, View()) && Enabled(cfg, View(), TimerFires)
      modifies this
      ensures View() == Apply(cfg, old(View()), TimerFires)
    {
      hide Ledger, SlotsHeld, DistinctIds, RowCount;
      timerArmed := false;
      DispatchPending();
    }

    method OnDone()
      requires Enabled(cfg, View(), ShutDown)
      modifies this
      ensures View() == RejectAll(cfg, Apply(cfg, old(View()), ShutDown))
    {
      hide RejectAll;
      ghost var start := Apply(cfg, View(), ShutDown);
      SeeDone();
      for i := 0 to |pending|
        invariant dispatcher == Rejecting(i) && RejectAll(cfg, View()) == RejectAll(cfg, start)
        invariant pending == old(pending)
      {
        RejectOne(cfg, View());
        RejectPending();
      }
      RejectNone(cfg, View());
      Exit();
    }

    // ---- The rest of the protocol, step by step ----

    method SubmitCoalesced(sub: Submission)
      requires Enabled(cfg, View(), Submit(sub))
      modifies this`channel
      ensures View() == Apply(cfg, old(View()), Submit(sub))
    {
      channel := channel + [sub];
    }

    method CloseDone()
      requires Enabled(cfg, View(), Close)
      modifies this`closed
      ensures View() == Apply(cfg, old(View()), Close)
    {
      closed := true;
    }

    method SeeDone()
      requires Enabled(cfg, View(), ShutDown)
      modifies this`dispatcher, this`timerArmed
      ensures View() == Apply(cfg, old(View()), ShutDown)
    {
      timerArmed := false;
      dispatcher := Rejecting(0);
    }

    method RejectPending()
      requires Enabled(cfg, View(), RejectNext)
      modifies this`dispatcher, this`replies
      ensures View() == Apply(cfg, old(View()), RejectNext)
    {
      replies := replies + [Reply(pending[dispatcher.next], ShuttingDown)];
      dispatcher := Rejecting(dispatcher.next + 1);
    }

    method Exit()
      requires Enabled(cfg, View(), DispatcherExits)
      modifies this`dispatcher, this`pending, this`totalRows, this`timerArmed
      ensures View() == Apply(cfg, old(View()), DispatcherExits)
    {
      dispatcher := Exited;
      pending, totalRows, timerArmed := [], 0, false;
    }

    /** A dispatch goroutine gets its slot. */
    method AcquireSlot(w: nat)
      requires Enabled(cfg, View(), Acquire(w))
      modifies this`workers, this`freeSlots
      ensures View() == Apply(cfg, old(View()), Acquire(w))
    {
      freeSlots := freeSlots - 1;
      workers := workers[w := workers[w].(stage := Calling)];
    }

    /** It sees the shutdown first, rejects its callers one by one, and ends. */
    method AbortStep(w: nat, t: Step)
      requires (t == Abort(w) || t == AbortNext(w) || t == AbortDone(w)) && Enabled(cfg, View(), t)
      modifies this`workers, this`replies
      ensures View() == Apply(cfg, old(View()), t)
    {
      var worker := workers[w];
      if worker.stage.Waiting? {
        workers := workers[w := worker.(stage := Aborting(0))];
      } else if worker.stage.next < |worker.batch| {
        replies := replies + [Reply(worker.batch[worker.stage.next], ShuttingDown)];
        workers := workers[w := worker.(stage := Aborting(worker.stage.next + 1))];
      } else {
        workers := workers[w := worker.(stage := Finished)];
      }
    }

    /** The call returns. */
    method ReceiveAnswer(w: nat, answer: HttpResult)
      requires Enabled(cfg, View(), Respond(w, answer))
      modifies this`workers
      ensures View() == Apply(cfg, old(View()), Respond(w, answer))
    {
      workers := workers[w := workers[w].(stage := Replying(answer, 0))];
    }

    /** The results go out one by one. */
    method SendResult(w: nat)
      requires Enabled(cfg, View(), ReplyNext(w))
      modifies this`workers, this`replies
      ensures View() == Apply(cfg, old(View()), ReplyNext(w))
    {
      hide ReplyFor;
      var worker := workers[w];
      var k := worker.stage.next;
      replies := replies + [Reply(worker.batch[k], ReplyFor(worker.batch, k, worker.stage.http))];
      workers := workers[w := worker.(stage := Replying(worker.stage.http, k + 1))];
    }

    /** And the slot is given back. */
    method ReleaseSlot(w: nat)
      requires Enabled(cfg, View(), Release(w))
      modifies this`workers, this`freeSlots
      ensures View() == Apply(cfg, old(View()), Release(w))
    {
      freeSlots := freeSlots + 1;
      workers := workers[w := workers[w].(stage := Finished)];
    }

    method Do(t: Step)
      requires Inv(cfg, View()) && Enabled(cfg, View(), t)
      modifies this
      ensures Inv(cfg, View()) && View() == Apply(cfg, old(View()), t)
    {
      StepKeepsInv(cfg, View(), t);
      hide Inv, Apply, Enabled;
      match t {
        case Submit(sub) => SubmitCoalesced(sub);
        case Receive => OnSubmission();
        case TimerFires => OnTimer();
        case Close => CloseDone();
        case ShutDown => SeeDone();
        case RejectNext => RejectPending();
        case DispatcherExits => Exit();
        case Acquire(w) => AcquireSlot(w);
        case Abort(w) => AbortStep(w, t);
        case AbortNext(w) => AbortStep(w, t);
        case AbortDone(w) => AbortStep(w, t);
        case Respond(w, answer) => ReceiveAnswer(w, answer);
        case ReplyNext(w) => SendResult(w);
        case Release(w) => ReleaseSlot(w);
      }
    }

    /** A whole run of the object, from the start: it goes through exactly when the protocol allows the run, and leaves
        the object where the protocol says. */
    method Run(run: seq<Step>) returns (ok: bool)
      requires View() == Initial(cfg)
      modifies this
      ensures ok <==> After(cfg, run).Some?
      ensures ok ==> After(cfg, run) == Some(View())
    {
      hide Inv, Apply, Enabled;
      RunInv(cfg, []);
      for i := 0 to |run|
        invariant After(cfg, run[..i]) == Some(View()) && Inv(cfg, View())
      {
        assert run[..i + 1][..i] == run[..i];
        if !Enabled(cfg, View(), run[i]) {
          NeverResumes(cfg, run, i + 1);
          return false;
        }
        Do(run[i]);
      }
      assert run[..|run|] == run;
      return true;
    }
  }

  /** A run with a step that was not enabled does not go through. */
  lemma {:induction false} NeverResumes(cfg: Config, run: seq<Step>, n: nat)
    requires n <= |run| && After(cfg, run[..n]).None?
    ensures After(cfg, run).None?
    decreases |run|
  {
    hide Apply, Enabled;
    if n == |run| {
      assert run[..n] == run;
    } else {
      assert run[..|run| - 1][..n] == run[..n];
      NeverResumes(cfg, run[..|run| - 1], n);
    }
  }
}
