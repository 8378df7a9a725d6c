// How often the candidate cache asks the datastore (CachedEndpointCandidates in pkg/epp/requestcontrol/candidates.go).
module FetchSpacing {
  import opened Wrappers
  import opened CacheKey
  import opened CandidateCache

  /** The caller has found no unexpired entry under the lock, and has yet to store one. */
  predicate Fetching(call: Call) { call.Missed? || call.Fetched? }

  /** While a fetch's answer lasts it is in the cache, or what replaced it is; and no one is fetching its key. */
  ghost predicate Kept(cfg: Config, s: State, f: Fetch) {
    s.now < f.at + cfg.Ttl() ==>
      && Key(f.md) in s.cache && s.cache[Key(f.md)].expiry >= f.at + cfg.Ttl()
      && forall c :: c in s.calls && Fetching(s.calls[c]) ==> Key(s.calls[c].md) != Key(f.md)
  }

  ghost predicate Apart(cfg: Config, fetches: seq<Fetch>) {
    forall i, j :: 0 <= i < j < |fetches| && Key(fetches[i].md) == Key(fetches[j].md) ==>
      fetches[j].at >= fetches[i].at + cfg.Ttl()
  }

  ghost predicate Spaced(cfg: Config, s: State) {
    Apart(cfg, s.fetches) && (forall f :: f in s.fetches ==> f.at <= s.now && Kept(cfg, s, f))
  }

  lemma CommitSpaced(cfg: Config, s: State, c: Caller)
    requires Spaced(cfg, s) && LockInv(s) && Enabled(s, Commit(c))
    ensures Spaced(cfg, Apply(cfg, s, Commit(c)))
  {
    hide Key, Answer;
    var t, md := Apply(cfg, s, Commit(c)), s.calls[c].md;
    assert forall d :: d in s.calls && Fetching(s.calls[d]) ==> d == c;
    forall f | f in t.fetches
      ensures f.at <= t.now && Kept(cfg, t, f)
    {
      if f in s.fetches {
        assert Kept(cfg, s, f);
      }
    }
    forall i, j | 0 <= i < j < |t.fetches| && Key(t.fetches[i].md) == Key(t.fetches[j].md)
      ensures t.fetches[j].at >= t.fetches[i].at + cfg.Ttl()
    {
      if j == |s.fetches| {
        assert t.fetches[i] in s.fetches && Kept(cfg, s, t.fetches[i]);
      }
    }
  }

  lemma CheckSpaced(cfg: Config, s: State, c: Caller)
    requires Spaced(cfg, s) && Enabled(s, CheckAgain(c))
    ensures Spaced(cfg, Apply(cfg, s, CheckAgain(c)))
  {
    hide Key;
    var t := Apply(cfg, s, CheckAgain(c));
    forall f | f in t.fetches
      ensures Kept(cfg, t, f)
    {
      assert Kept(cfg, s, f);
    }
  }

  lemma CleanupSpaced(cfg: Config, s: State)
    requires Spaced(cfg, s)
    ensures Spaced(cfg, s.(cache := Cleaned(s.cache, s.now)))
  {
    hide Key;
    forall f | f in s.fetches
      ensures Kept(cfg, s.(cache := Cleaned(s.cache, s.now)), f)
    {
      assert Kept(cfg, s, f);
    }
  }

  lemma StepSpaced(cfg: Config, s: State, step: Step)
    requires Spaced(cfg, s) && LockInv(s) && Enabled(s, step)
    ensures Spaced(cfg, Apply(cfg, s, step))
  {
    hide Key, Answer;
    match step {
      case Commit(c) => CommitSpaced(cfg, s, c);
      case CheckAgain(c) => CheckSpaced(cfg, s, c);
      case Cleanup => CleanupSpaced(cfg, s);
      case _ =>
        forall f | f in s.fetches
          ensures Kept(cfg, Apply(cfg, s, step), f)
        {
          assert Kept(cfg, s, f);
        }
    }
  }

  lemma {:induction false} AlwaysSpaced(cfg: Config, now: int, store: seq<Endpoint>, steps: seq<Step>)
    ensures Spaced(cfg, Run(cfg, Initial(now, store), steps))
    decreases |steps|
  {
    hide Spaced, LockInv, Enabled, Apply;
    if steps == [] {
      NothingFetched(cfg, now, store);
    } else {
      var front := steps[..|steps| - 1];
      AlwaysSpaced(cfg, now, store, front);
      OneFetchAtATime(cfg, now, store, front);
      if Enabled(Run(cfg, Initial(now, store), front), steps[|steps| - 1]) {
        StepSpaced(cfg, Run(cfg, Initial(now, store), front), steps[|steps| - 1]);
      }
    }
  }

  lemma NothingFetched(cfg: Config, now: int, store: seq<Endpoint>)
    ensures Spaced(cfg, Initial(now, store))
  {
  }

  /** Over every interleaving of any requests, two fetches for one key are at least the ttl apart: until an answer
      expires every call with its key is served from the cache. */
  lemma FetchesApart(cfg: Config, now: int, store: seq<Endpoint>, steps: seq<Step>, i: nat, j: nat)
    requires var fetches := Run(cfg, Initial(now, store), steps).fetches;
             i < j < |fetches| && Key(fetches[i].md) == Key(fetches[j].md)
    ensures var fetches := Run(cfg, Initial(now, store), steps).fetches;
            fetches[j].at >= fetches[i].at + if cfg.configuredTtl <= 0 then 50 else cfg.configuredTtl
  {
    hide Run, Key;
    AlwaysSpaced(cfg, now, store, steps);
  }

  // ---- Progress ----

  /** The next step of a call. */
  function NextStep(call: Call, c: Caller): Step {
    match call
    case Begun(_) => Read(c)
    case HasRead(_, _) => Check(c)
    case Waiting(_) => Acquire(c)
    case Locked(_) => CheckAgain(c)
    case Missed(_) => Ask(c)
    case _ => Commit(c)
  }

  function StepsLeft(call: Call): nat {
    match call
    case Begun(_) => 6
    case HasRead(_, _) => 5
    case Waiting(_) => 4
    case Locked(_) => 3
    case Missed(_) => 2
    case Fetched(_, _) => 1
    case Answered(_, _, _) => 0
  }

  /** In every reachable state with an unanswered call, some unanswered call can take its next step, which brings it
      nearer to its answer: nobody waits for ever for the lock. */
  lemma CallsProceed(cfg: Config, now: int, store: seq<Endpoint>, steps: seq<Step>, c: Caller)
    requires var s := Run(cfg, Initial(now, store), steps); c in s.calls && !s.calls[c].Answered?
    ensures var s := Run(cfg, Initial(now, store), steps);
            exists d :: d in s.calls && !s.calls[d].Answered? && Enabled(s, NextStep(s.calls[d], d))
                     && StepsLeft(Apply(cfg, s, NextStep(s.calls[d], d)).calls[d]) < StepsLeft(s.calls[d])
  {
    hide Key, Answer, Run, Hit;
    OneFetchAtATime(cfg, now, store, steps);
    var s := Run(cfg, Initial(now, store), steps);
    var d := if s.lock.Some? then s.lock.value else c;
    assert d in s.calls && !s.calls[d].Answered?;
    assert Enabled(s, NextStep(s.calls[d], d));
    assert StepsLeft(Apply(cfg, s, NextStep(s.calls[d], d)).calls[d]) < StepsLeft(s.calls[d]);
  }
}
