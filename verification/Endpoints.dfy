// What the endpoint store and the collector runtime do to one endpoint (pkg/epp/datastore/datastore.go,
// pkg/epp/datalayer/runtime.go), and what the pod and pool controllers ask of them
// (pkg/epp/controller/pod_reconciler.go). Every store operation acts on each pod rank by itself.
module Endpoints {
  import opened Wrappers
  import opened Collecting

  type Labels = map<string, string>

  /** `activePorts` is the active-ports annotation, cut at the commas and scanned. */
  datatype Pod = Pod(name: string, ip: string, labels: Labels, ready: bool, activePorts: Option<seq<Option<int>>>)

  datatype Pool = Pool(selector: Labels, targetPorts: seq<int>)

  datatype Meta = Meta(podName: string, address: string, port: int, metricsPort: int, labels: Labels)

  datatype Env = Env(pollers: seq<Source>, metricsPort: int)

  predicate Matches(pool: Pool, labels: Labels) {
    forall k :: k in pool.selector ==> k in labels && labels[k] == pool.selector[k]
  }

  function ActivePorts(pod: Pod, targetPorts: seq<int>): set<int> {
    match pod.activePorts
    case None => set p | p in targetPorts
    case Some(scanned) => set p | p in targetPorts && p > 0 && Some(p) in scanned
  }

  predicate Active(pool: Pool, pod: Pod, rank: nat) {
    rank < |pool.targetPorts| && pool.targetPorts[rank] in ActivePorts(pod, pool.targetPorts)
  }

  function MetricsPort(env: Env, pool: Pool, port: int): int {
    if |pool.targetPorts| == 1 && env.metricsPort != 0 then env.metricsPort else port
  }

  function MetaOf(env: Env, pool: Pool, pod: Pod, rank: nat): Meta
    requires rank < |pool.targetPorts|
  {
    var port := pool.targetPorts[rank];
    Meta(pod.name, pod.ip, port, MetricsPort(env, pool, port), pod.labels)
  }

  // ---- The life of one endpoint name ----

  datatype EndpointEvent = AddOrUpdate | Delete

  /** What is stored under the name, its collector, the collectors it had before, and the events dispatched for it. */
  datatype Life = Life(stored: Option<Meta>, collector: Option<CollectorState>,
                       past: seq<CollectorState>, events: seq<EndpointEvent>)

  const UNBORN := Life(None, None, [], [])

  function Registered(pollers: seq<Source>): (r: seq<Option<Source>>)
    ensures |r| == |pollers| && None !in r
  {
    seq(|pollers|, i requires 0 <= i < |pollers| => Some(pollers[i]))
  }

  /** NewEndpoint: the life after it, and whether an endpoint came out. */
  function Created(pollers: seq<Source>, contextDone: bool, life: Life): (Life, bool) {
    if pollers == [] then (life, true)
    else if life.collector.Some? then (life, false)
    else
      var (c, err) := OnStart(NEW_COLLECTOR, Registered(pollers), contextDone);
      if err.Some? then (life.(past := life.past + [c]), false)
      else (life.(collector := Some(c), events := life.events + [AddOrUpdate]), true)
  }

  /** ReleaseEndpoint. */
  function Released(life: Life): Life {
    var told := life.(events := life.events + [Delete]);
    if life.collector.None? then told
    else told.(collector := None, past := life.past + [OnStop(life.collector.value).0])
  }

  function Upserted(env: Env, meta: Meta, contextDone: bool, life: Life): Life {
    if life.stored.Some? then life.(stored := Some(meta))
    else
      var (made, ok) := Created(env.pollers, contextDone, life);
      if ok then made.(stored := Some(meta)) else made
  }

  function Removed(life: Life): Life {
    if life.stored.None? then life else Released(life.(stored := None))
  }

  function RankUpdated(env: Env, pool: Pool, pod: Pod, rank: nat, contextDone: bool, life: Life): Life
    requires rank < |pool.targetPorts|
  {
    if Active(pool, pod, rank) then Upserted(env, MetaOf(env, pool, pod, rank), contextDone, life) else Removed(life)
  }

  // ---- Store operations ----

  type Cluster = map<string, Pod>

  predicate Named(cluster: Cluster) { forall n :: n in cluster ==> cluster[n].name == n }

  /** Listed by the selector and ready. */
  predicate Selected(cluster: Cluster, pool: Pool, pod: string) {
    pod in cluster && cluster[pod].ready && Matches(pool, cluster[pod].labels)
  }

  /** `cancelled`: the ranks, as pod and index, whose collector start meets a cancelled context. */
  datatype StoreOp =
    | Nothing
    | UpdateOrAdd(pool: Pool, pod: Pod, cancelled: set<(string, nat)>)
    | DeletePod(name: string)
    | Resync(pool: Pool, cluster: Cluster, cancelled: set<(string, nat)>)
    | Clear

  function LifeStep(env: Env, op: StoreOp, pod: string, rank: nat, life: Life): Life {
    match op
    case Nothing => life
    case UpdateOrAdd(pool, p, cancelled) =>
      if p.name == pod && rank < |pool.targetPorts| then RankUpdated(env, pool, p, rank, (pod, rank) in cancelled, life)
      else life
    case DeletePod(name) => if life.stored.Some? && life.stored.value.podName == name then Removed(life) else life
    case Resync(pool, cluster, cancelled) =>
      if Selected(cluster, pool, pod) && rank < |pool.targetPorts|
      then RankUpdated(env, pool, cluster[pod], rank, (pod, rank) in cancelled, life)
      else Removed(life)
    case Clear => Removed(life)
  }

  // ---- The controllers ----

  /** A change of the watched pods, one pass of the pod reconciler, or a pool being set (None: deleted). */
  datatype Event =
    | PodApplied(pod: Pod)
    | PodGone(name: string)
    | Reconcile(name: string, getFails: bool, cancelled: set<(string, nat)>)
    | PoolSet(pool: Option<Pool>, listFails: bool, cancelled: set<(string, nat)>)

  /** `stale`: the list of the last pool change failed. */
  datatype Control = Control(cluster: Cluster, queue: set<string>, pool: Option<Pool>, stale: bool)

  predicate LabelsMatch(pool: Option<Pool>, labels: Labels) { pool.Some? && Matches(pool.value, labels) }

  predicate Changed(was: Option<Pool>, now: Pool) {
    was.None? || was.value.selector != now.selector || was.value.targetPorts != now.targetPorts
  }

  function Queued(c: Control, name: string, was: Option<Pod>, now: Option<Pod>): set<string> {
    if (was.Some? && LabelsMatch(c.pool, was.value.labels)) || (now.Some? && LabelsMatch(c.pool, now.value.labels))
    then c.queue + {name} else c.queue
  }

  function Lookup(cluster: Cluster, name: string): Option<Pod> {
    if name in cluster then Some(cluster[name]) else None
  }

  function ControlStep(c: Control, e: Event): Control {
    match e
    case PodApplied(pod) =>
      c.(cluster := c.cluster[pod.name := pod], queue := Queued(c, pod.name, Lookup(c.cluster, pod.name), Some(pod)))
    case PodGone(name) => c.(cluster := c.cluster - {name}, queue := Queued(c, name, Lookup(c.cluster, name), None))
    case Reconcile(name, getFails, _) => if c.pool.Some? && getFails then c else c.(queue := c.queue - {name})
    case PoolSet(None, _, _) => c.(pool := None, stale := false)
    case PoolSet(Some(pool), listFails, _) =>
      c.(pool := Some(pool), stale := if Changed(c.pool, pool) then listFails else c.stale)
  }

  function StoreOpOf(c: Control, e: Event): StoreOp {
    match e
    case PodApplied(_) => Nothing
    case PodGone(_) => Nothing
    case Reconcile(name, getFails, cancelled) =>
      if c.pool.None? || getFails then Nothing
      else if name !in c.cluster then DeletePod(name)
      else if !c.cluster[name].ready || !LabelsMatch(c.pool, c.cluster[name].labels)
      then DeletePod(c.cluster[name].name)
      else UpdateOrAdd(c.pool.value, c.cluster[name], cancelled)
    case PoolSet(None, _, _) => Clear
    case PoolSet(Some(pool), listFails, cancelled) =>
      if Changed(c.pool, pool) && !listFails then Resync(pool, c.cluster, cancelled) else Nothing
  }

  function ControlAfter(events: seq<Event>): Control {
    if events == [] then Control(map[], {}, None, false)
    else ControlStep(ControlAfter(events[..|events| - 1]), events[|events| - 1])
  }

  function LifeAfter(env: Env, events: seq<Event>, pod: string, rank: nat): Life {
    if events == [] then UNBORN
    else
      var before := events[..|events| - 1];
      LifeStep(env, StoreOpOf(ControlAfter(before), events[|events| - 1]), pod, rank, LifeAfter(env, before, pod, rank))
  }

  // ---- The latest pods and pool ----

  predicate OnPod(e: Event, name: string) { (e.PodApplied? && e.pod.name == name) || (e.PodGone? && e.name == name) }

  predicate LastOnPod(events: seq<Event>, i: nat, name: string) {
    i < |events| && OnPod(events[i], name) && forall j :: i < j < |events| ==> !OnPod(events[j], name)
  }

  predicate LastPoolSet(events: seq<Event>, i: nat) {
    i < |events| && events[i].PoolSet? && forall j :: i < j < |events| ==> !events[j].PoolSet?
  }

  lemma OneEvent(c: Control, e: Event, name: string)
    ensures Lookup(ControlStep(c, e).cluster, name)
         == if !OnPod(e, name) then Lookup(c.cluster, name) else if e.PodApplied? then Some(e.pod) else None
    ensures ControlStep(c, e).pool == if e.PoolSet? then e.pool else c.pool
  {
  }

  /** A pod is as it was last applied, or gone if it went since; one that never came is not there. */
  lemma {:induction false} LatestPods(events: seq<Event>, i: nat, name: string)
    requires LastOnPod(events, i, name) || (i == |events| && NeverOnPod(events, name))
    ensures Lookup(ControlAfter(events).cluster, name)
         == if i < |events| && events[i].PodApplied? then Some(events[i].pod) else None
    decreases |events|
  {
    if events != [] {
      var n := |events| - 1;
      OneEvent(ControlAfter(events[..n]), events[n], name);
      if i != n {
        var k := if i < n then i else n;
        assert i < n ==> LastOnPod(events[..n], i, name);
        LatestPods(events[..n], k, name);
      }
    }
  }

  predicate NeverOnPod(events: seq<Event>, name: string) {
    forall i :: 0 <= i < |events| ==> !OnPod(events[i], name)
  }

  /** The pool is the one last set. */
  lemma {:induction false} LatestPool(events: seq<Event>, i: nat)
    requires LastPoolSet(events, i) || (i == |events| && forall j :: 0 <= j < |events| ==> !events[j].PoolSet?)
    ensures ControlAfter(events).pool == if i < |events| then events[i].pool else None
    decreases |events|
  {
    if events != [] {
      var n := |events| - 1;
      OneEvent(ControlAfter(events[..n]), events[n], "");
      if i != n {
        var k := if i < n then i else n;
        assert i < n ==> LastPoolSet(events[..n], i);
        LatestPool(events[..n], k);
      }
    }
  }

  // ---- Collectors and events ----

  /** Adds and deletes in turn, an add first. */
  predicate Alternates(events: seq<EndpointEvent>) {
    forall i :: 0 <= i < |events| ==> events[i] == if i % 2 == 0 then AddOrUpdate else Delete
  }

  predicate Healthy(life: Life) {
    && (life.collector.Some? <==> life.stored.Some?)
    && (life.collector.Some? ==> Running(life.collector.value))
    && (forall c :: c in life.past ==> Ended(c))
    && Alternates(life.events)
    && (life.stored.Some? <==> |life.events| % 2 == 1)
  }

  lemma UpsertedHealthy(env: Env, meta: Meta, contextDone: bool, life: Life)
    requires env.pollers != [] && Healthy(life)
    ensures Healthy(Upserted(env, meta, contextDone, life))
  {
  }

  lemma RemovedHealthy(life: Life)
    requires Healthy(life)
    ensures Healthy(Removed(life))
  {
  }

  lemma StepHealthy(env: Env, op: StoreOp, pod: string, rank: nat, life: Life)
    requires env.pollers != [] && Healthy(life)
    ensures Healthy(LifeStep(env, op, pod, rank, life))
  {
    RemovedHealthy(life);
    match op {
      case UpdateOrAdd(pool, p, cancelled) =>
        if rank < |pool.targetPorts| {
          UpsertedHealthy(env, MetaOf(env, pool, p, rank), (pod, rank) in cancelled, life);
        }
      case Resync(pool, cluster, cancelled) =>
        if Selected(cluster, pool, pod) && rank < |pool.targetPorts| {
          UpsertedHealthy(env, MetaOf(env, pool, cluster[pod], rank), (pod, rank) in cancelled, life);
        }
      case _ =>
    }
  }

  /** With a poller, in every run: a collector runs exactly for what is stored, every collector was launched once
      and those no longer running were ended once, and the events alternate, starting with an add. */
  lemma {:induction false} CollectorsFollowEndpoints(env: Env, events: seq<Event>, pod: string, rank: nat)
    requires env.pollers != []
    ensures Healthy(LifeAfter(env, events, pod, rank))
    decreases |events|
  {
    if events != [] {
      var before := events[..|events| - 1];
      CollectorsFollowEndpoints(env, before, pod, rank);
      StepHealthy(env, StoreOpOf(ControlAfter(before), events[|events| - 1]), pod, rank,
                  LifeAfter(env, before, pod, rank));
    }
  }

  // ---- Agreement with a full resync ----

  function AtRank(env: Env, pool: Pool, p: Pod, rank: nat): Option<Meta> {
    if Active(pool, p, rank) then Some(MetaOf(env, pool, p, rank)) else None
  }

  /** What the latest pods and the pool call for at a rank. */
  function Desired(env: Env, cluster: Cluster, pool: Pool, pod: string, rank: nat): Option<Meta> {
    if Selected(cluster, pool, pod) then AtRank(env, pool, cluster[pod], rank) else None
  }

  /** The pod is ready, has every pair of the selector among its labels, and opens the rank's port: without the
      annotation any target port, with it a positive one that it lists. */
  predicate CalledFor(cluster: Cluster, pool: Pool, pod: string, rank: nat) {
    && pod in cluster && cluster[pod].ready && pool.selector.Items <= cluster[pod].labels.Items
    && rank < |pool.targetPorts|
    && match cluster[pod].activePorts
       case None => true
       case Some(listed) => pool.targetPorts[rank] > 0 && Some(pool.targetPorts[rank]) in listed
  }

  /** The endpoint is that of the pod at the rank's port, scraped at the configured port if the pod has one target port
      and a port is configured, and else at its own. */
  predicate Describes(env: Env, pod: Pod, pool: Pool, rank: nat, meta: Meta)
    requires rank < |pool.targetPorts|
  {
    && meta.podName == pod.name && meta.address == pod.ip && meta.labels == pod.labels
    && meta.port == pool.targetPorts[rank]
    && (|pool.targetPorts| == 1 && env.metricsPort != 0 ==> meta.metricsPort == env.metricsPort)
    && (|pool.targetPorts| != 1 || env.metricsPort == 0 ==> meta.metricsPort == meta.port)
  }

  lemma MatchesIff(pool: Pool, labels: Labels)
    ensures Matches(pool, labels) <==> pool.selector.Items <= labels.Items
  {
    if pool.selector.Items <= labels.Items {
      forall k | k in pool.selector
        ensures k in labels && labels[k] == pool.selector[k]
      {
        assert (k, pool.selector[k]) in pool.selector.Items;
      }
    }
  }

  lemma DesiredIs(env: Env, cluster: Cluster, pool: Pool, pod: string, rank: nat)
    ensures Desired(env, cluster, pool, pod, rank).Some? <==> CalledFor(cluster, pool, pod, rank)
    ensures CalledFor(cluster, pool, pod, rank) ==>
              Describes(env, cluster[pod], pool, rank, Desired(env, cluster, pool, pod, rank).value)
  {
    hide Matches;
    if pod in cluster {
      MatchesIff(pool, cluster[pod].labels);
    }
  }

  /** No collector outlives its endpoint, so none stands in the way of a new one. */
  predicate Unblocked(life: Life, pod: string) {
    && (life.collector.Some? ==> life.stored.Some?)
    && (life.stored.Some? ==> life.stored.value.podName == pod)
  }

  /** In the event, the rank's collector start would meet a cancelled context. */
  predicate Cancels(e: Event, pod: string, rank: nat) {
    match e
    case Reconcile(_, _, cancelled) => (pod, rank) in cancelled
    case PoolSet(_, _, cancelled) => (pod, rank) in cancelled
    case _ => false
  }

  predicate EverCancelled(events: seq<Event>, pod: string, rank: nat) {
    exists i :: 0 <= i < |events| && Cancels(events[i], pod, rank)
  }

  /** What is stored is what is wanted, or nothing where that is excused. */
  predicate AsWanted(wanted: Option<Meta>, excused: bool, life: Life) {
    life.stored == wanted || (excused && life.stored.None?)
  }

  lemma RankUpdatedStores(env: Env, pool: Pool, p: Pod, rank: nat, contextDone: bool, life: Life)
    requires rank < |pool.targetPorts| && Unblocked(life, p.name)
    ensures Unblocked(RankUpdated(env, pool, p, rank, contextDone, life), p.name)
    ensures AsWanted(AtRank(env, pool, p, rank), contextDone, RankUpdated(env, pool, p, rank, contextDone, life))
  {
    hide ActivePorts, Registered;
  }

  /** A resync leaves what is desired, from any earlier life, or nothing where a start is cancelled. */
  lemma ResyncLeaves(env: Env, cluster: Cluster, pool: Pool, cancelled: set<(string, nat)>,
                     pod: string, rank: nat, life: Life)
    requires Named(cluster) && Unblocked(life, pod)
    ensures AsWanted(Desired(env, cluster, pool, pod, rank), (pod, rank) in cancelled,
                     LifeStep(env, Resync(pool, cluster, cancelled), pod, rank, life))
  {
    hide Matches, ActivePorts, RankUpdated;
    if Selected(cluster, pool, pod) && rank < |pool.targetPorts| {
      RankUpdatedStores(env, pool, cluster[pod], rank, (pod, rank) in cancelled, life);
    }
  }

  /** A resync leaves what is desired, from any earlier life. */
  lemma ResyncIsDesired(env: Env, cluster: Cluster, pool: Pool, pod: string, rank: nat, life: Life)
    requires Named(cluster) && Unblocked(life, pod)
    ensures LifeStep(env, Resync(pool, cluster, {}), pod, rank, life).stored == Desired(env, cluster, pool, pod, rank)
  {
    hide LifeStep, Desired;
    ResyncLeaves(env, cluster, pool, {}, pod, rank, life);
  }

  lemma StepUnblocked(env: Env, c: Control, e: Event, pod: string, rank: nat, life: Life)
    requires Named(c.cluster) && Unblocked(life, pod)
    ensures Unblocked(LifeStep(env, StoreOpOf(c, e), pod, rank, life), pod)
  {
    hide Matches, ActivePorts, RankUpdated;
    match StoreOpOf(c, e) {
      case UpdateOrAdd(pool, p, cancelled) =>
        if p.name == pod && rank < |pool.targetPorts| {
          RankUpdatedStores(env, pool, p, rank, (pod, rank) in cancelled, life);
        }
      case Resync(pool, cluster, cancelled) =>
        if Selected(cluster, pool, pod) && rank < |pool.targetPorts| {
          RankUpdatedStores(env, pool, cluster[pod], rank, (pod, rank) in cancelled, life);
        }
      case _ =>
    }
  }

  lemma {:induction false} AlwaysNamed(events: seq<Event>)
    ensures Named(ControlAfter(events).cluster)
    decreases |events|
  {
    if events != [] {
      AlwaysNamed(events[..|events| - 1]);
    }
  }

  lemma {:induction false} AlwaysUnblocked(env: Env, events: seq<Event>, pod: string, rank: nat)
    ensures Unblocked(LifeAfter(env, events, pod, rank), pod)
    decreases |events|
  {
    if events != [] {
      var before := events[..|events| - 1];
      AlwaysNamed(before);
      AlwaysUnblocked(env, before, pod, rank);
      StepUnblocked(env, ControlAfter(before), events[|events| - 1], pod, rank, LifeAfter(env, before, pod, rank));
    }
  }

  /** What is desired under the current pool, if there is one. */
  function DesiredNow(env: Env, c: Control, pod: string, rank: nat): Option<Meta> {
    if c.pool.None? then None else Desired(env, c.cluster, c.pool.value, pod, rank)
  }

  /** What is stored is what is desired, except for a pod still to be reconciled, or nothing where a start was
      cancelled; ranks beyond the target ports are never stored. */
  predicate InStep(env: Env, c: Control, pod: string, rank: nat, life: Life, excused: bool) {
    && (c.pool.None? ==> life.stored.None?)
    && (c.pool.Some? && !c.stale ==>
          && (rank >= |c.pool.value.targetPorts| ==> life.stored.None?)
          && (pod !in c.queue ==> AsWanted(DesiredNow(env, c, pod, rank), excused, life)))
  }

  lemma ReconcileKeepsInStep(env: Env, c: Control, e: Event, pod: string, rank: nat, life: Life, excused: bool)
    requires e.Reconcile?
    requires Named(c.cluster) && Unblocked(life, pod) && InStep(env, c, pod, rank, life, excused)
    ensures InStep(env, ControlStep(c, e), pod, rank, LifeStep(env, StoreOpOf(c, e), pod, rank, life),
                   excused || Cancels(e, pod, rank))
  {
    hide Matches, ActivePorts, RankUpdated;
    var op := StoreOpOf(c, e);
    if op.UpdateOrAdd? && e.name == pod && rank < |op.pool.targetPorts| {
      RankUpdatedStores(env, op.pool, op.pod, rank, (pod, rank) in op.cancelled, life);
    }
  }

  lemma PoolSetKeepsInStep(env: Env, c: Control, e: Event, pod: string, rank: nat, life: Life, excused: bool)
    requires e.PoolSet?
    requires Named(c.cluster) && Unblocked(life, pod) && InStep(env, c, pod, rank, life, excused)
    ensures InStep(env, ControlStep(c, e), pod, rank, LifeStep(env, StoreOpOf(c, e), pod, rank, life),
                   excused || Cancels(e, pod, rank))
  {
    hide Matches, ActivePorts, RankUpdated, Selected;
    if e.pool.Some? {
      ResyncLeaves(env, c.cluster, e.pool.value, e.cancelled, pod, rank, life);
      BeyondThePorts(env, c.cluster, e.pool.value, pod, rank);
      assert !Changed(c.pool, e.pool.value) ==> e.pool == c.pool;
    }
  }

  lemma BeyondThePorts(env: Env, cluster: Cluster, pool: Pool, pod: string, rank: nat)
    ensures rank >= |pool.targetPorts| ==> Desired(env, cluster, pool, pod, rank) == None
  {
    hide Matches, ActivePorts;
  }

  lemma StepKeepsInStep(env: Env, c: Control, e: Event, pod: string, rank: nat, life: Life, excused: bool)
    requires Named(c.cluster) && Unblocked(life, pod) && InStep(env, c, pod, rank, life, excused)
    ensures InStep(env, ControlStep(c, e), pod, rank, LifeStep(env, StoreOpOf(c, e), pod, rank, life),
                   excused || Cancels(e, pod, rank))
  {
    match e {
      case Reconcile(_, _, _) => ReconcileKeepsInStep(env, c, e, pod, rank, life, excused);
      case PoolSet(_, _, _) => PoolSetKeepsInStep(env, c, e, pod, rank, life, excused);
      case _ => hide Matches, ActivePorts, MetaOf;
    }
  }

  lemma CancelledSnoc(events: seq<Event>, pod: string, rank: nat)
    requires events != []
    ensures EverCancelled(events, pod, rank)
       <==> EverCancelled(events[..|events| - 1], pod, rank) || Cancels(events[|events| - 1], pod, rank)
  {
    var n := |events| - 1;
    assert forall i :: 0 <= i < n ==> events[..n][i] == events[i];
  }

  lemma {:induction false} AlwaysInStep(env: Env, events: seq<Event>, pod: string, rank: nat)
    ensures InStep(env, ControlAfter(events), pod, rank, LifeAfter(env, events, pod, rank),
                   EverCancelled(events, pod, rank))
    decreases |events|
  {
    hide InStep, LifeStep, StoreOpOf, ControlStep, Cancels, EverCancelled, Unblocked, Named;
    if events == [] {
      AtFirst(env, pod, rank);
    } else {
      var before, e := events[..|events| - 1], events[|events| - 1];
      AlwaysInStep(env, before, pod, rank);
      AlwaysNamed(before);
      AlwaysUnblocked(env, before, pod, rank);
      CancelledSnoc(events, pod, rank);
      StepKeepsInStep(env, ControlAfter(before), e, pod, rank, LifeAfter(env, before, pod, rank),
                      EverCancelled(before, pod, rank));
    }
  }

  lemma AtFirst(env: Env, pod: string, rank: nat)
    ensures InStep(env, ControlAfter([]), pod, rank, LifeAfter(env, [], pod, rank), EverCancelled([], pod, rank))
  {
  }

  /** In every run of pod changes, reconciles and pool changes, once a pod has no reconcile pending and the last pool
      change listed the pods, what is stored at each of its ranks is what a full resync of the latest pods would
      store, from whatever life it started; a rank one of whose collector starts was cancelled may be missing. That is
      an endpoint exactly where the latest pods call for one, with the pod's address and labels and the rank's ports. */
  lemma IncrementalEqualsResync(env: Env, events: seq<Event>, pod: string, rank: nat, earlier: Life)
    requires var c := ControlAfter(events); c.pool.Some? && !c.stale && pod !in c.queue
    requires Unblocked(earlier, pod)
    ensures var c := ControlAfter(events);
            var synced := LifeStep(env, Resync(c.pool.value, c.cluster, {}), pod, rank, earlier).stored;
            && AsWanted(synced, EverCancelled(events, pod, rank), LifeAfter(env, events, pod, rank))
            && (synced.Some? <==> CalledFor(c.cluster, c.pool.value, pod, rank))
            && (synced.Some? ==> Describes(env, c.cluster[pod], c.pool.value, rank, synced.value))
  {
    hide LifeStep, Desired, EverCancelled, Unblocked, Named;
    DesiredIs(env, ControlAfter(events).cluster, ControlAfter(events).pool.value, pod, rank);
    AlwaysInStep(env, events, pod, rank);
    AlwaysNamed(events);
    var c := ControlAfter(events);
    ResyncIsDesired(env, c.cluster, c.pool.value, pod, rank, earlier);
  }

  // ---- Where it fails ----

  /** A pool whose list failed is stored all the same, and setting it again does not list: afterwards the rank is as
      the new pool wants it exactly when the old pool wanted the same there. */
  lemma FailedListIff(env: Env, events: seq<Event>, pool: Pool, pod: string, rank: nat)
    requires !EverCancelled(events, pod, rank)
    requires !ControlAfter(events).stale && pod !in ControlAfter(events).queue
    ensures var c := ControlAfter(events);
            var later := events + [PoolSet(Some(pool), true, {})] + [PoolSet(Some(pool), false, {})];
            && ControlAfter(later).cluster == c.cluster && ControlAfter(later).pool == Some(pool)
            && (LifeAfter(env, later, pod, rank).stored == Desired(env, c.cluster, pool, pod, rank)
                <==> DesiredNow(env, c, pod, rank) == Desired(env, c.cluster, pool, pod, rank))
  {
    AlwaysInStep(env, events, pod, rank);
    var one := events + [PoolSet(Some(pool), true, {})];
    var two := one + [PoolSet(Some(pool), false, {})];
    assert one[..|one| - 1] == events && two[..|two| - 1] == one;
    assert LifeAfter(env, one, pod, rank) == LifeAfter(env, events, pod, rank);
    assert LifeAfter(env, two, pod, rank) == LifeAfter(env, one, pod, rank);
  }

  const A_POD := Pod("p", "ip", map[], true, None)
  const A_POOL := Pool(map[], [8000])

  lemma AfterFirstPod(env: Env)
    ensures ControlAfter([PodApplied(A_POD)]) == Control(map["p" := A_POD], {}, None, false)
    ensures LifeAfter(env, [PodApplied(A_POD)], "p", 0) == UNBORN
    ensures Selected(map["p" := A_POD], A_POOL, "p") && Active(A_POOL, A_POD, 0)
  {
    var events := [PodApplied(A_POD)];
    assert events[..0] == [] && events[0] == PodApplied(A_POD);
    assert ControlAfter([]) == Control(map[], {}, None, false);
    var empty: Cluster := map[];
    assert empty[A_POD.name := A_POD] == map["p" := A_POD];
    assert A_POOL.targetPorts[0] == 8000;
  }

  /** A pod is there, the first list fails, the second call is given the same pool: the pod is never stored. */
  lemma FailedListLosesPod(env: Env)
    ensures var events := [PodApplied(A_POD), PoolSet(Some(A_POOL), true, {}), PoolSet(Some(A_POOL), false, {})];
            && ControlAfter(events).queue == {}
            && LifeAfter(env, events, "p", 0).stored == None
            && Desired(env, ControlAfter(events).cluster, A_POOL, "p", 0).Some?
  {
    AfterFirstPod(env);
    var start := [PodApplied(A_POD)];
    var events := start + [PoolSet(Some(A_POOL), true, {})] + [PoolSet(Some(A_POOL), false, {})];
    assert events == [PodApplied(A_POD), PoolSet(Some(A_POOL), true, {}), PoolSet(Some(A_POOL), false, {})];
    FailedListIff(env, start, A_POOL, "p", 0);
    var one := start + [PoolSet(Some(A_POOL), true, {})];
    assert one[..1] == start && events[..2] == one;
    assert LifeAfter(env, one, "p", 0) == UNBORN;
  }

  /** Without a poller the pod is stored unannounced and its removal announced. */
  lemma DeleteWithoutAdd(env: Env)
    requires env.pollers == []
    ensures var events := [PodApplied(A_POD)] + [PoolSet(Some(A_POOL), false, {})] + [PoolSet(None, false, {})];
            LifeAfter(env, events, "p", 0).events == [Delete]
  {
    AfterFirstPod(env);
    var start := [PodApplied(A_POD)];
    var up := start + [PoolSet(Some(A_POOL), false, {})];
    var down := up + [PoolSet(None, false, {})];
    assert up[..1] == start && down[..2] == up;
    assert |A_POOL.targetPorts| == 1;
    assert LifeAfter(env, up, "p", 0) == UNBORN.(stored := Some(MetaOf(env, A_POOL, A_POD, 0)));
  }

  /** Deletes are announced with or without pollers, adds only with: the events of all names alternate in all runs
      exactly when there is a poller. */
  lemma AlternationNeedsPoller(env: Env)
    ensures (forall events, pod, rank :: Alternates(LifeAfter(env, events, pod, rank).events)) <==> env.pollers != []
  {
    if env.pollers != [] {
      forall events, pod, rank
        ensures Alternates(LifeAfter(env, events, pod, rank).events)
      {
        CollectorsFollowEndpoints(env, events, pod, rank);
      }
    } else {
      DeleteWithoutAdd(env);
      var events := [PodApplied(A_POD)] + [PoolSet(Some(A_POOL), false, {})] + [PoolSet(None, false, {})];
      var seen := LifeAfter(env, events, "p", 0).events;
      assert seen[0] == Delete && !Alternates(seen);
    }
  }
}
