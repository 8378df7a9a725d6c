// Which submissions the coalescer puts into one call, and what each caller is told, read off the steps of the run alone
// (sidecars/latencypredictorasync/coalescer.go).
module CoalescerBatching {
  import opened Wrappers
  import opened Coalescer
  import opened CoalescerProtocol

  // ---- The submissions of a run ----

  /** The submissions put into the channel, in order. */
  function Submitted(run: seq<Step>): seq<Submission> {
    if run == [] then []
    else Submitted(run[..|run| - 1]) + if run[|run| - 1].Submit? then [run[|run| - 1].sub] else []
  }

  function Receives(run: seq<Step>): nat {
    if run == [] then 0 else Receives(run[..|run| - 1]) + if run[|run| - 1].Receive? then 1 else 0
  }

  /** The submissions taken out of the channel, first come first served. */
  function Taken(run: seq<Step>): seq<Submission> {
    if Receives(run) <= |Submitted(run)| then Submitted(run)[..Receives(run)] else Submitted(run)
  }

  /** The step ends the window: the timer fires, or with a cap the rows taken since the last window reach it. */
  predicate Closes(cfg: Config, t: Step, window: seq<Submission>) {
    t.TimerFires? || (t.Receive? && cfg.rowCap > 0 && RowCount(window) >= cfg.rowCap)
  }

  /** How many submissions were taken before the window that is open now. */
  function Opened(cfg: Config, run: seq<Step>): (k: nat)
    ensures k <= |Taken(run)|
  {
    if run == [] then 0
    else
      var k := Opened(cfg, run[..|run| - 1]);
      if Closes(cfg, run[|run| - 1], Taken(run)[k..]) then |Taken(run)| else k
  }

  /** The windows closed so far. */
  function Windows(cfg: Config, run: seq<Step>): seq<seq<Submission>> {
    if run == [] then []
    else
      var before, window := Windows(cfg, run[..|run| - 1]), Taken(run)[Opened(cfg, run[..|run| - 1])..];
      if Closes(cfg, run[|run| - 1], window) then before + [window] else before
  }

  // ---- Batches are windows ----

  ghost predicate Queues(run: seq<Step>, s: State) {
    && Receives(run) <= |Submitted(run)|
    && s.received == Taken(run) && s.channel == Submitted(run)[Receives(run)..]
  }

  lemma QueuesStep(cfg: Config, run: seq<Step>, s: State)
    requires run != [] && Queues(run[..|run| - 1], s) && Enabled(cfg, s, run[|run| - 1])
    ensures Queues(run, Apply(cfg, s, run[|run| - 1]))
  {
    hide CapReached, ReplyFor;
    var before, t := run[..|run| - 1], run[|run| - 1];
    var subs, n := Submitted(before), Receives(before);
    if t.Receive? {
      assert subs + [] == subs;
      assert subs[n..][0] == subs[n] && subs[n..][1..] == subs[n + 1..];
      assert subs[..n + 1] == subs[..n] + [subs[n]];
    } else if t.Submit? {
      assert (subs + [t.sub])[..n] == subs[..n] && (subs + [t.sub])[n..] == subs[n..] + [t.sub];
    } else {
      assert subs + [] == subs;
    }
  }

  ghost predicate Batches(cfg: Config, run: seq<Step>, s: State) {
    && (!s.dispatcher.Exited? ==> s.queue.pending == Taken(run)[Opened(cfg, run)..])
    && |s.workers| == |Windows(cfg, run)|
    && forall j :: 0 <= j < |s.workers| ==> s.workers[j].batch == Windows(cfg, run)[j]
  }

  /** A step that takes nothing and is not the timer leaves window and batches alone. */
  lemma OtherStep(cfg: Config, run: seq<Step>, s: State)
    requires run != [] && Enabled(cfg, s, run[|run| - 1])
    requires Queues(run[..|run| - 1], s) && Batches(cfg, run[..|run| - 1], s)
    requires !run[|run| - 1].Receive? && !run[|run| - 1].TimerFires?
    ensures Batches(cfg, run, Apply(cfg, s, run[|run| - 1]))
  {
    hide Apply, Enabled, Taken, Opened, Windows;
    TakenSame(run);
    SameWindows(cfg, run);
    SameBatches(cfg, s, run[|run| - 1]);
  }

  lemma SameWindows(cfg: Config, run: seq<Step>)
    requires run != [] && !run[|run| - 1].Receive? && !run[|run| - 1].TimerFires?
    ensures Opened(cfg, run) == Opened(cfg, run[..|run| - 1]) && Windows(cfg, run) == Windows(cfg, run[..|run| - 1])
  {
  }

  lemma SameBatches(cfg: Config, s: State, t: Step)
    requires Enabled(cfg, s, t) && !t.Receive? && !t.TimerFires?
    ensures var later := Apply(cfg, s, t);
            && |later.workers| == |s.workers|
            && (forall j :: 0 <= j < |s.workers| ==> later.workers[j].batch == s.workers[j].batch)
            && (!later.dispatcher.Exited? ==> !s.dispatcher.Exited? && later.queue.pending == s.queue.pending)
  {
    hide ReplyFor;
  }

  lemma TakenSame(run: seq<Step>)
    requires run != [] && !run[|run| - 1].Receive? && Receives(run[..|run| - 1]) <= |Submitted(run[..|run| - 1])|
    ensures Taken(run) == Taken(run[..|run| - 1])
  {
  }

  lemma TimerStep(cfg: Config, run: seq<Step>, s: State)
    requires run != [] && run[|run| - 1] == TimerFires && Inv(cfg, s) && Enabled(cfg, s, TimerFires)
    requires Queues(run[..|run| - 1], s) && Batches(cfg, run[..|run| - 1], s)
    ensures Batches(cfg, run, Apply(cfg, s, TimerFires))
  {
    hide Ledger, DistinctIds, SlotsHeld, RowCount, WorkersOk, Taken;
    TakenSame(run);
  }

  lemma ReceiveStep(cfg: Config, run: seq<Step>, s: State)
    requires run != [] && run[|run| - 1] == Receive && Inv(cfg, s) && Enabled(cfg, s, Receive)
    requires Queues(run[..|run| - 1], s) && Batches(cfg, run[..|run| - 1], s)
    ensures Batches(cfg, run, Apply(cfg, s, Receive))
  {
    hide Ledger, DistinctIds, SlotsHeld, WorkersOk, Taken, RowCount;
    QueuesStep(cfg, run, s);
    var k, x := Opened(cfg, run[..|run| - 1]), s.channel[0];
    assert Taken(run) == Taken(run[..|run| - 1]) + [x];
    assert Taken(run)[k..] == s.queue.pending + [x];
    RowsOfMore(s.queue.pending, x);
    assert Taken(run)[|Taken(run)|..] == [];
  }

  lemma RowsOfMore(subs: seq<Submission>, x: Submission)
    ensures RowCount(subs + [x]) == RowCount(subs) + |x.rows|
  {
    MergeSnoc(subs, x);
  }

  /** Over every interleaving: the calls are made with exactly the windows of the run, each the submissions taken since
      the one before, in order, closed by the timer or by reaching the cap and by nothing else; what is pending is the
      window still open, and what was not taken is still in the channel. */
  lemma {:induction false} BatchesAreWindows(cfg: Config, run: seq<Step>)
    requires After(cfg, run).Some?
    ensures Queues(run, After(cfg, run).value) && Batches(cfg, run, After(cfg, run).value)
    decreases |run|
  {
    if run != [] {
      var before, t := run[..|run| - 1], run[|run| - 1];
      BatchesAreWindows(cfg, before);
      RunInv(cfg, before);
      var s := After(cfg, before).value;
      hide Inv, Queues, Batches, Enabled, Apply;
      QueuesStep(cfg, run, s);
      match t {
        case Receive => ReceiveStep(cfg, run, s);
        case TimerFires => TimerStep(cfg, run, s);
        case _ => OtherStep(cfg, run, s);
      }
    }
  }

  /** A submission received with no cap, or that leaves the pending rows below it, waits with those before it; one that
      reaches the cap goes out with them at once. */
  lemma ReceiveDecides(cfg: Config, run: seq<Step>)
    requires After(cfg, run).Some? && Enabled(cfg, After(cfg, run).value, Receive)
    ensures var s := After(cfg, run).value;
            var x, later := s.channel[0], Apply(cfg, s, Receive);
            if cfg.rowCap == 0 || RowCount(s.queue.pending) + |x.rows| < cfg.rowCap then
              later.workers == s.workers && later.queue.pending == s.queue.pending + [x] && later.queue.timerArmed
            else
              && later.workers == s.workers + [Worker(s.queue.pending + [x], Waiting)]
              && later.queue.pending == [] && !later.queue.timerArmed
  {
    RunInv(cfg, run);
  }

  // ---- What each caller is told ----

  /** Caller `k` of the batch is told what the call's answer says of its rows. */
  predicate Tells(answer: HttpResult, batch: seq<Submission>, k: nat, result: BatchResult)
    requires k < |batch|
  {
    var start, n := RowCount(batch[..k]), |batch[k].rows|;
    match answer
    case HttpErr(message) => result == CallFailed(message)
    case HttpOk(all) =>
      if start + n <= |all| then
        result.Response? && result.predictions == all[start..start + n] && result.totalRequests == n
        && result.successful == n && result.failed == 0
      else result == TooShort(start, start + n, |all|)
  }

  ghost predicate ToldBy(run: seq<Step>, s: State, w: nat, k: nat, answer: HttpResult, r: Reply) {
    && Respond(w, answer) in run && w < |s.workers| && k < |s.workers[w].batch|
    && s.workers[w].batch[k] == r.sub && Tells(answer, s.workers[w].batch, k, r.result)
  }

  ghost predicate Explained(run: seq<Step>, s: State, r: Reply) {
    (s.closed && r.result == ShuttingDown) || exists w, k, answer :: ToldBy(run, s, w, k, answer, r)
  }

  ghost predicate RepliesExplained(run: seq<Step>, s: State) { forall r :: r in s.replies ==> Explained(run, s, r) }

  /** Who is replying has its answer from the run; who rejects has seen the shutdown. */
  predicate StagesExplained(run: seq<Step>, s: State) {
    (s.dispatcher.Rejecting? ==> s.closed) && forall w: nat :: w < |s.workers| ==> StageExplained(run, s, w)
  }

  predicate StageExplained(run: seq<Step>, s: State, w: nat)
    requires w < |s.workers|
  {
    match s.workers[w].stage
    case Replying(http, _) => Respond(w, http) in run
    case Aborting(_) => s.closed
    case _ => true
  }

  /** Batches stay where and what they are. */
  ghost predicate Grows(s: State, t: State) {
    && |s.workers| <= |t.workers| && (forall w :: 0 <= w < |s.workers| ==> t.workers[w].batch == s.workers[w].batch)
    && (s.closed ==> t.closed)
  }

  lemma StaysExplained(before: seq<Step>, run: seq<Step>, s: State, t: State, r: Reply)
    requires Grows(s, t) && (forall x :: x in before ==> x in run) && Explained(before, s, r)
    ensures Explained(run, t, r)
  {
    hide Tells;
    if !(s.closed && r.result == ShuttingDown) {
      var w, k, answer :| ToldBy(before, s, w, k, answer, r);
      assert ToldBy(run, t, w, k, answer, r);
    }
  }

  lemma ApplyGrows(cfg: Config, s: State, t: Step)
    requires Enabled(cfg, s, t)
    ensures Grows(s, Apply(cfg, s, t))
  {
    hide CapReached, ReplyFor;
  }

  /** The result that a step sends is explained. */
  lemma SentExplained(cfg: Config, run: seq<Step>, s: State)
    requires run != [] && Enabled(cfg, s, run[|run| - 1]) && StagesExplained(run[..|run| - 1], s)
    ensures var later := Apply(cfg, s, run[|run| - 1]);
            forall r :: r in later.replies && r !in s.replies ==> Explained(run, later, r)
  {
    var t := run[|run| - 1];
    if t.ReplyNext? {
      var Worker(batch, Replying(http, k)) := s.workers[t.w];
      var later, r := Apply(cfg, s, t), Reply(batch[k], ReplyFor(batch, k, http));
      assert StageExplained(run[..|run| - 1], s, t.w);
      assert ToldBy(run, later, t.w, k, http, r);
    } else if t.AbortNext? {
      assert StageExplained(run[..|run| - 1], s, t.w);
    }
  }

  lemma StagesStep(cfg: Config, run: seq<Step>, s: State)
    requires run != [] && Enabled(cfg, s, run[|run| - 1]) && StagesExplained(run[..|run| - 1], s)
    ensures StagesExplained(run, Apply(cfg, s, run[|run| - 1]))
  {
    hide ReplyFor, CapReached, StageExplained;
    assert run == run[..|run| - 1] + [run[|run| - 1]];
    var later := Apply(cfg, s, run[|run| - 1]);
    forall w: nat | w < |later.workers|
      ensures StageExplained(run, later, w)
    {
      StageStep(cfg, run, s, w);
    }
  }

  lemma StageStep(cfg: Config, run: seq<Step>, s: State, w: nat)
    requires run != [] && Enabled(cfg, s, run[|run| - 1]) && w < |Apply(cfg, s, run[|run| - 1]).workers|
    requires w < |s.workers| ==> StageExplained(run[..|run| - 1], s, w)
    ensures StageExplained(run, Apply(cfg, s, run[|run| - 1]), w)
  {
    hide ReplyFor, CapReached;
    assert run == run[..|run| - 1] + [run[|run| - 1]];
  }

  lemma RepliesStep(cfg: Config, run: seq<Step>, s: State)
    requires run != [] && Enabled(cfg, s, run[|run| - 1])
    requires StagesExplained(run[..|run| - 1], s) && RepliesExplained(run[..|run| - 1], s)
    ensures RepliesExplained(run, Apply(cfg, s, run[|run| - 1]))
  {
    hide Explained, Apply, Enabled, StagesExplained, Grows;
    var before, later := run[..|run| - 1], Apply(cfg, s, run[|run| - 1]);
    SentExplained(cfg, run, s);
    ApplyGrows(cfg, s, run[|run| - 1]);
    forall r | r in later.replies
      ensures Explained(run, later, r)
    {
      if r in s.replies {
        assert forall x :: x in before ==> x in run;
        StaysExplained(before, run, s, later, r);
      }
    }
  }

  /** Over every interleaving, every result sent is the shutdown notice, once shut down, or tells the caller what the
      answer to its own batch's call says: the call's error, its own rows' predictions, or that they fell short. */
  lemma {:induction false} EveryResultExplained(cfg: Config, run: seq<Step>)
    requires After(cfg, run).Some?
    ensures RepliesExplained(run, After(cfg, run).value) && StagesExplained(run, After(cfg, run).value)
    decreases |run|
  {
    hide RepliesExplained, StagesExplained, Enabled, Apply;
    if run == [] {
      NothingToExplain(cfg);
    } else {
      var s := After(cfg, run[..|run| - 1]).value;
      EveryResultExplained(cfg, run[..|run| - 1]);
      StagesStep(cfg, run, s);
      RepliesStep(cfg, run, s);
    }
  }

  lemma NothingToExplain(cfg: Config)
    ensures RepliesExplained([], Initial(cfg)) && StagesExplained([], Initial(cfg))
  {
  }
}
