// The cache in front of the candidate lookup (CachedEndpointCandidates in pkg/epp/requestcontrol/candidates.go): many
// callers, one read-write lock, a clock that never goes back, and a datastore that changes underneath.
module CandidateCache {
  import opened Wrappers
  import opened CacheKey

  type Caller = nat

  const DEFAULT_TTL := 50

  datatype Config = Config(disabled: bool, configuredTtl: int) {
    function Ttl(): (t: int)
      ensures t > 0
    {
      if configuredTtl <= 0 then DEFAULT_TTL else configuredTtl
    }
  }

  datatype Entry = Entry(pods: seq<Endpoint>, expiry: int)

  type Cache = map<string, Entry>

  function Lookup(cache: Cache, key: string): Option<Entry> {
    if key in cache then Some(cache[key]) else None
  }

  function Hit(found: Option<Entry>, now: int): Option<seq<Endpoint>> {
    if found.Some? && now < found.value.expiry then Some(found.value.pods) else None
  }

  function Cleaned(cache: Cache, now: int): Cache {
    map k | k in cache && now <= cache[k].expiry :: cache[k]
  }

  /** Where a call stands: it reads the cache, checks the clock, waits for the lock, checks again, fetches, stores. */
  datatype Call =
    | Begun(md: Metadata)
    | HasRead(md: Metadata, found: Option<Entry>)
    | Waiting(md: Metadata)
    | Locked(md: Metadata)
    | Missed(md: Metadata)
    | Fetched(md: Metadata, snapshot: seq<Endpoint>)
    | Answered(md: Metadata, pods: seq<Endpoint>, at: int)

  /** A fetch that has finished: for which request, from which store, and when. */
  datatype Fetch = Fetch(md: Metadata, store: seq<Endpoint>, at: int)

  datatype State = State(
    now: int, store: seq<Endpoint>, cache: Cache, lock: Option<Caller>, calls: map<Caller, Call>, fetches: seq<Fetch>)

  datatype Step =
    | Tick(delta: nat)
    | Change(store: seq<Endpoint>)
    | Begin(c: Caller, md: Metadata)
    | Read(c: Caller)
    | Check(c: Caller)
    | Acquire(c: Caller)
    | CheckAgain(c: Caller)
    | Ask(c: Caller)
    | Commit(c: Caller)
    | Cleanup

  predicate Enabled(s: State, step: Step) {
    match step
    case Tick(_) => true
    case Change(_) => true
    case Begin(c, _) => c !in s.calls
    case Read(c) => c in s.calls && s.calls[c].Begun? && s.lock.None?
    case Check(c) => c in s.calls && s.calls[c].HasRead?
    case Acquire(c) => c in s.calls && s.calls[c].Waiting? && s.lock.None?
    case CheckAgain(c) => c in s.calls && s.calls[c].Locked?
    case Ask(c) => c in s.calls && s.calls[c].Missed?
    case Commit(c) => c in s.calls && s.calls[c].Fetched?
    case Cleanup => s.lock.None?
  }

  function Apply(cfg: Config, s: State, step: Step): State
    requires Enabled(s, step)
  {
    match step
    case Tick(delta) => s.(now := s.now + delta)
    case Change(store) => s.(store := store)
    case Begin(c, md) => s.(calls := s.calls[c := Begun(md)])
    case Read(c) =>
      var md := s.calls[c].md;
      s.(calls := s.calls[c := HasRead(md, Lookup(s.cache, Key(md)))])
    case Check(c) =>
      var call := s.calls[c];
      var hit := Hit(call.found, s.now);
      s.(calls := s.calls[c := if hit.Some? then Answered(call.md, hit.value, s.now) else Waiting(call.md)])
    case Acquire(c) => s.(lock := Some(c), calls := s.calls[c := Locked(s.calls[c].md)])
    case CheckAgain(c) =>
      var md := s.calls[c].md;
      var hit := Hit(Lookup(s.cache, Key(md)), s.now);
      if hit.Some? then s.(lock := None, calls := s.calls[c := Answered(md, hit.value, s.now)])
      else s.(calls := s.calls[c := Missed(md)])
    case Ask(c) => s.(calls := s.calls[c := Fetched(s.calls[c].md, s.store)])
    case Commit(c) =>
      var md, snapshot := s.calls[c].md, s.calls[c].snapshot;
      var pods := Answer(cfg.disabled, snapshot, md);
      s.(cache := s.cache[Key(md) := Entry(pods, s.now + cfg.Ttl())], lock := None,
         calls := s.calls[c := Answered(md, pods, s.now)], fetches := s.fetches + [Fetch(md, snapshot, s.now)])
    case Cleanup => s.(cache := Cleaned(s.cache, s.now))
  }

  function After(cfg: Config, s: State, step: Step): State {
    if Enabled(s, step) then Apply(cfg, s, step) else s
  }

  function Run(cfg: Config, start: State, steps: seq<Step>): State {
    if steps == [] then start else After(cfg, Run(cfg, start, steps[..|steps| - 1]), steps[|steps| - 1])
  }

  function Initial(now: int, store: seq<Endpoint>): State { State(now, store, map[], None, map[], []) }

  // ---- Every answer comes from a recent fetch ----

  /** The entry under the key was stored by this fetch. */
  predicate Made(cfg: Config, f: Fetch, key: string, e: Entry) {
    Key(f.md) == key && e == Entry(Answer(cfg.disabled, f.store, f.md), f.at + cfg.Ttl())
  }

  predicate Backed(cfg: Config, s: State, key: string, e: Entry) {
    exists i :: 0 <= i < |s.fetches| && Made(cfg, s.fetches[i], key, e)
  }

  /** The fetch that made the answer finished less than the ttl before it. */
  predicate FreshBy(cfg: Config, f: Fetch, md: Metadata, pods: seq<Endpoint>, at: int) {
    Key(f.md) == Key(md) && pods == Answer(cfg.disabled, f.store, f.md) && f.at <= at < f.at + cfg.Ttl()
  }

  predicate Fresh(cfg: Config, s: State, md: Metadata, pods: seq<Endpoint>, at: int) {
    exists i :: 0 <= i < |s.fetches| && FreshBy(cfg, s.fetches[i], md, pods, at)
  }

  predicate CallOk(cfg: Config, s: State, call: Call) {
    && Plain(call.md)
    && (call.HasRead? && call.found.Some? ==> Backed(cfg, s, Key(call.md), call.found.value))
    && (call.Answered? ==> Fresh(cfg, s, call.md, call.pods, call.at))
  }

  predicate Inv(cfg: Config, s: State) {
    && (forall i :: 0 <= i < |s.fetches| ==> s.fetches[i].at <= s.now && Plain(s.fetches[i].md))
    && (forall k :: k in s.cache ==> Backed(cfg, s, k, s.cache[k]))
    && (forall c :: c in s.calls ==> CallOk(cfg, s, s.calls[c]))
  }

  lemma HitIsFresh(cfg: Config, s: State, md: Metadata, e: Entry)
    requires Inv(cfg, s) && Backed(cfg, s, Key(md), e) && s.now < e.expiry
    ensures Fresh(cfg, s, md, e.pods, s.now)
  {
    var i :| 0 <= i < |s.fetches| && Made(cfg, s.fetches[i], Key(md), e);
    assert FreshBy(cfg, s.fetches[i], md, e.pods, s.now);
  }

  /** More fetches back and justify no less. */
  lemma MoreFetches(cfg: Config, s: State, t: State, call: Call)
    requires s.fetches <= t.fetches && CallOk(cfg, s, call)
    ensures CallOk(cfg, t, call)
  {
    hide Plain, Key, Answer, Made, FreshBy;
  }

  lemma MoreBacked(cfg: Config, s: State, t: State, k: string, e: Entry)
    requires s.fetches <= t.fetches && Backed(cfg, s, k, e)
    ensures Backed(cfg, t, k, e)
  {
    hide Key, Answer, Made;
  }

  lemma CommitKeepsInv(cfg: Config, s: State, c: Caller)
    requires Inv(cfg, s) && Enabled(s, Commit(c))
    ensures Inv(cfg, Apply(cfg, s, Commit(c)))
  {
    var t := Apply(cfg, s, Commit(c));
    var call := s.calls[c];
    var f := t.fetches[|s.fetches|];
    assert f == Fetch(call.md, call.snapshot, s.now);
    assert Made(cfg, f, Key(call.md), t.cache[Key(call.md)]);
    assert FreshBy(cfg, f, call.md, t.calls[c].pods, s.now);
    forall k | k in t.cache
      ensures Backed(cfg, t, k, t.cache[k])
    {
      if k != Key(call.md) {
        MoreBacked(cfg, s, t, k, s.cache[k]);
      }
    }
    forall d | d in t.calls
      ensures CallOk(cfg, t, t.calls[d])
    {
      if d != c {
        MoreFetches(cfg, s, t, s.calls[d]);
      }
    }
  }

  /** Only one call moves; the cache and the fetches stay. */
  lemma OneCallMoves(cfg: Config, s: State, c: Caller, call: Call, lock: Option<Caller>)
    requires Inv(cfg, s) && CallOk(cfg, s, call)
    ensures Inv(cfg, s.(lock := lock, calls := s.calls[c := call]))
  {
    hide Plain, Key, Answer, Made, FreshBy;
  }

  lemma CheckKeepsInv(cfg: Config, s: State, step: Step)
    requires Inv(cfg, s) && Enabled(s, step) && (step.Check? || step.CheckAgain?)
    ensures Inv(cfg, Apply(cfg, s, step))
  {
    var call := s.calls[step.c];
    var found := if step.Check? then call.found else Lookup(s.cache, Key(call.md));
    assert CallOk(cfg, s, call);
    if found.Some? && s.now < found.value.expiry {
      HitIsFresh(cfg, s, call.md, found.value);
    }
    var t := Apply(cfg, s, step);
    OneCallMoves(cfg, s, step.c, t.calls[step.c], t.lock);
  }

  lemma StepKeepsInv(cfg: Config, s: State, step: Step)
    requires Inv(cfg, s) && Enabled(s, step) && (step.Begin? ==> Plain(step.md))
    ensures Inv(cfg, Apply(cfg, s, step))
  {
    hide Plain, Key, Answer, Made, FreshBy;
    match step {
      case Commit(c) => CommitKeepsInv(cfg, s, c);
      case Check(_) => CheckKeepsInv(cfg, s, step);
      case CheckAgain(_) => CheckKeepsInv(cfg, s, step);
      case _ =>
    }
  }

  predicate PlainSteps(steps: seq<Step>) { forall i :: 0 <= i < |steps| && steps[i].Begin? ==> Plain(steps[i].md) }

  lemma {:induction false} RunInv(cfg: Config, now: int, store: seq<Endpoint>, steps: seq<Step>)
    requires PlainSteps(steps)
    ensures Inv(cfg, Run(cfg, Initial(now, store), steps))
    decreases |steps|
  {
    if steps != [] {
      RunInv(cfg, now, store, steps[..|steps| - 1]);
      var s := Run(cfg, Initial(now, store), steps[..|steps| - 1]);
      if Enabled(s, steps[|steps| - 1]) {
        StepKeepsInv(cfg, s, steps[|steps| - 1]);
      }
    }
  }

  /** Over every interleaving of plain requests, whatever a call is answered is what the delegate itself answers for
      that request, from a fetch that finished less than the ttl before. */
  lemma AnswersAreTheDelegates(cfg: Config, now: int, store: seq<Endpoint>, steps: seq<Step>, c: Caller)
    requires PlainSteps(steps)
    requires var s := Run(cfg, Initial(now, store), steps); c in s.calls && s.calls[c].Answered?
    ensures var s := Run(cfg, Initial(now, store), steps);
            var call := s.calls[c];
            exists i :: 0 <= i < |s.fetches| && call.pods == Answer(cfg.disabled, s.fetches[i].store, call.md)
                     && s.fetches[i].at <= call.at
                     && call.at < s.fetches[i].at + if cfg.configuredTtl <= 0 then 50 else cfg.configuredTtl
  {
    var s := Run(cfg, Initial(now, store), steps);
    RunInv(cfg, now, store, steps);
    var call := s.calls[c];
    assert CallOk(cfg, s, call);
    var i :| 0 <= i < |s.fetches| && FreshBy(cfg, s.fetches[i], call.md, call.pods, call.at);
    EqualKeysEqualAnswers(s.fetches[i].md, call.md);
  }

  // ---- Cleanups change no answer ----

  function WithoutCleanups(steps: seq<Step>): seq<Step> {
    if steps == [] then []
    else WithoutCleanups(steps[..|steps| - 1]) + if steps[|steps| - 1].Cleanup? then [] else [steps[|steps| - 1]]
  }

  /** The same entry, or one that has expired where the cleanup left nothing. */
  predicate SameOrGone(now: int, cleaned: Option<Entry>, kept: Option<Entry>) {
    cleaned == kept || (cleaned.None? && kept.Some? && kept.value.expiry <= now)
  }

  predicate SimilarCall(now: int, cleaned: Call, kept: Call) {
    cleaned == kept
    || (cleaned.HasRead? && kept.HasRead? && cleaned.md == kept.md && SameOrGone(now, cleaned.found, kept.found))
  }

  ghost predicate Similar(a: State, b: State) {
    && a.now == b.now && a.store == b.store && a.lock == b.lock && a.fetches == b.fetches
    && a.calls.Keys == b.calls.Keys
    && (forall c :: c in a.calls ==> SimilarCall(a.now, a.calls[c], b.calls[c]))
    && (forall k :: SameOrGone(a.now, Lookup(a.cache, k), Lookup(b.cache, k)))
  }

  lemma SimilarEnabled(a: State, b: State, step: Step)
    requires Similar(a, b)
    ensures Enabled(a, step) <==> Enabled(b, step)
  {
  }

  lemma SimilarCheck(cfg: Config, a: State, b: State, step: Step)
    requires Similar(a, b) && Enabled(a, step) && Enabled(b, step) && (step.Check? || step.CheckAgain?)
    ensures Similar(Apply(cfg, a, step), Apply(cfg, b, step))
  {
    hide Key, Lookup;
    assert SimilarCall(a.now, a.calls[step.c], b.calls[step.c]);
    var md := a.calls[step.c].md;
    assert SameOrGone(a.now, Lookup(a.cache, Key(md)), Lookup(b.cache, Key(md)));
  }

  lemma SimilarCommit(cfg: Config, a: State, b: State, c: Caller)
    requires Similar(a, b) && Enabled(a, Commit(c)) && Enabled(b, Commit(c))
    ensures Similar(Apply(cfg, a, Commit(c)), Apply(cfg, b, Commit(c)))
  {
    hide Key, Answer, SameOrGone, SimilarCall;
    var p, q := Apply(cfg, a, Commit(c)), Apply(cfg, b, Commit(c));
    CommitsAlike(a, b, c);
    forall k
      ensures SameOrGone(a.now, Lookup(p.cache, k), Lookup(q.cache, k))
    {
      SameStays(a.now, Lookup(p.cache, k));
      assert SameOrGone(a.now, Lookup(a.cache, k), Lookup(b.cache, k));
    }
    forall d | d in p.calls
      ensures SimilarCall(a.now, p.calls[d], q.calls[d])
    {
      SimilarItself(a.now, p.calls[d]);
    }
  }

  lemma CommitsAlike(a: State, b: State, c: Caller)
    requires Similar(a, b) && Enabled(a, Commit(c)) && Enabled(b, Commit(c))
    ensures a.calls[c] == b.calls[c]
  {
    assert SimilarCall(a.now, a.calls[c], b.calls[c]);
  }

  lemma SameStays(now: int, e: Option<Entry>)
    ensures SameOrGone(now, e, e)
  {
  }

  lemma SimilarItself(now: int, call: Call)
    ensures SimilarCall(now, call, call)
  {
  }

  lemma SimilarTick(cfg: Config, a: State, b: State, delta: nat)
    requires Similar(a, b)
    ensures Similar(Apply(cfg, a, Tick(delta)), Apply(cfg, b, Tick(delta)))
  {
    hide Lookup;
    forall k
      ensures SameOrGone(a.now + delta, Lookup(a.cache, k), Lookup(b.cache, k))
    {
      assert SameOrGone(a.now, Lookup(a.cache, k), Lookup(b.cache, k));
    }
    forall c | c in a.calls
      ensures SimilarCall(a.now + delta, a.calls[c], b.calls[c])
    {
      assert SimilarCall(a.now, a.calls[c], b.calls[c]);
    }
  }

  lemma SimilarApply(cfg: Config, a: State, b: State, step: Step)
    requires Similar(a, b) && !step.Cleanup? && Enabled(a, step) && Enabled(b, step)
    ensures Similar(Apply(cfg, a, step), Apply(cfg, b, step))
  {
    match step {
      case Tick(delta) => SimilarTick(cfg, a, b, delta);
      case Check(_) => SimilarCheck(cfg, a, b, step);
      case CheckAgain(_) => SimilarCheck(cfg, a, b, step);
      case Commit(c) => SimilarCommit(cfg, a, b, c);
      case _ =>
    }
  }

  lemma SimilarStep(cfg: Config, a: State, b: State, step: Step)
    requires Similar(a, b) && !step.Cleanup?
    ensures Similar(After(cfg, a, step), After(cfg, b, step))
  {
    SimilarEnabled(a, b, step);
    if Enabled(a, step) {
      SimilarApply(cfg, a, b, step);
    }
  }

  lemma SimilarCleanup(cfg: Config, a: State, b: State)
    requires Similar(a, b)
    ensures Similar(After(cfg, a, Cleanup), b)
  {
  }

  lemma {:induction false} SimilarRun(cfg: Config, start: State, steps: seq<Step>)
    ensures Similar(Run(cfg, start, steps), Run(cfg, start, WithoutCleanups(steps)))
    decreases |steps|
  {
    if steps != [] {
      var front, last := steps[..|steps| - 1], steps[|steps| - 1];
      SimilarRun(cfg, start, front);
      var a, b := Run(cfg, start, front), Run(cfg, start, WithoutCleanups(front));
      if last.Cleanup? {
        SimilarCleanup(cfg, a, b);
        assert WithoutCleanups(steps) == WithoutCleanups(front);
      } else {
        SimilarStep(cfg, a, b, last);
        var all := WithoutCleanups(front) + [last];
        assert all[..|all| - 1] == WithoutCleanups(front);
      }
    }
  }

  /** Taking the cleanups out of a run changes no call's answer and no fetch. */
  lemma CleanupsChangeNoAnswer(cfg: Config, start: State, steps: seq<Step>, c: Caller)
    ensures var a := Run(cfg, start, steps);
            var b := Run(cfg, start, WithoutCleanups(steps));
            && a.fetches == b.fetches
            && (c in a.calls <==> c in b.calls)
            && (c in a.calls && (a.calls[c].Answered? || b.calls[c].Answered?) ==> a.calls[c] == b.calls[c])
  {
    SimilarRun(cfg, start, steps);
  }

  /** The lock has one holder at most, so a fetch for a key is never doubled. */
  predicate Holding(call: Call) { call.Locked? || call.Missed? || call.Fetched? }

  predicate LockInv(s: State) {
    && (forall c :: c in s.calls ==> (Holding(s.calls[c]) <==> s.lock == Some(c)))
    && (s.lock.Some? ==> s.lock.value in s.calls)
  }

  lemma {:induction false} OneFetchAtATime(cfg: Config, now: int, store: seq<Endpoint>, steps: seq<Step>)
    ensures LockInv(Run(cfg, Initial(now, store), steps))
    decreases |steps|
  {
    hide Key, Answer;
    if steps != [] {
      OneFetchAtATime(cfg, now, store, steps[..|steps| - 1]);
    }
  }

  // ---- The cache as an object ----

  /** The part of a call under the lock, with the clock read at `t2` and `t3`: the cache after it and the answer. */
  function Refilled(cfg: Config, cache: Cache, md: Metadata, store: seq<Endpoint>,
                    t2: int, t3: int): (Cache, seq<Endpoint>) {
    var hit := Hit(Lookup(cache, Key(md)), t2);
    if hit.Some? then (cache, hit.value)
    else
      var pods := Answer(cfg.disabled, store, md);
      (cache[Key(md) := Entry(pods, t3 + cfg.Ttl())], pods)
  }

  /** Those are the steps of a waiting call, time passing before the second check and before the store. */
  lemma LockedSteps(cfg: Config, s: State, c: Caller, d: nat, e: nat)
    requires Enabled(s, Acquire(c))
    ensures var checked := After(cfg, After(cfg, After(cfg, s, Acquire(c)), Tick(d)), CheckAgain(c));
            var done := After(cfg, After(cfg, After(cfg, checked, Ask(c)), Tick(e)), Commit(c));
            var (cache, pods) := Refilled(cfg, s.cache, s.calls[c].md, s.store, s.now + d, s.now + d + e);
            done.cache == cache && done.calls[c].Answered? && done.calls[c].pods == pods && done.lock.None?
  {
    hide Key, Answer;
  }

  class CachedEndpointCandidates {
    const cfg: Config
    var cache: Cache

    constructor (cfg: Config)
      ensures this.cfg == cfg && cache == map[]
    {
      this.cfg, cache := cfg, map[];
    }

    /** The fast path, under the read lock. */
    method LookUp(md: Metadata, now: int) returns (pods: Option<seq<Endpoint>>)
      ensures pods == Hit(Lookup(cache, Key(md)), now)
    {
      var key := GenerateCacheKey(md);
      if key in cache && now < cache[key].expiry {
        return Some(cache[key].pods);
      }
      return None;
    }

    /** The slow path, under the write lock. */
    method LocateLocked(md: Metadata, store: seq<Endpoint>, t2: int, t3: int) returns (pods: seq<Endpoint>)
      modifies this
      ensures (cache, pods) == Refilled(cfg, old(cache), md, store, t2, t3)
    {
      var key := GenerateCacheKey(md);
      if key in cache && t2 < cache[key].expiry {
        return cache[key].pods;
      }
      var freshPods := CacheKey.Locate(cfg.disabled, store, md);
      cache := cache[key := Entry(freshPods, t3 + cfg.Ttl())];
      return freshPods;
    }

    method Cleanup(now: int)
      modifies this
      ensures cache == Cleaned(old(cache), now)
    {
      var todo := cache.Keys;
      while todo != {}
        invariant todo <= old(cache).Keys
        invariant forall k :: k in cache <==> k in old(cache) && (k in todo || now <= old(cache)[k].expiry)
        invariant forall k :: k in cache ==> cache[k] == old(cache)[k]
        decreases |todo|
      {
        var key :| key in todo;
        if now > cache[key].expiry {
          cache := cache - {key};
        }
        todo := todo - {key};
      }
    }
  }
}
