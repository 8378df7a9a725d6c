// The endpoint store, the collector runtime behind it and the controllers in front of it, as objects
// (pkg/epp/datastore/datastore.go, pkg/epp/datalayer/runtime.go, pkg/epp/controller/pod_reconciler.go).
module EndpointStore {
  import opened Wrappers
  import opened Collecting
  import opened EndpointNames
  import opened Endpoints

  ghost predicate Ranked(n: string) { exists p, i: nat :: n == EndpointName(p, i) }

  lemma NameDecides(q: string, k: nat)
    ensures forall p, i: nat :: EndpointName(p, i) == EndpointName(q, k) <==> p == q && i == k
  {
    forall p, i: nat
      ensures EndpointName(p, i) == EndpointName(q, k) <==> p == q && i == k
    {
      EndpointNamesDistinct(p, i, q, k);
    }
  }

  method ExtractActivePorts(pod: Pod, targetPorts: seq<int>) returns (active: set<int>)
    ensures active == ActivePorts(pod, targetPorts)
  {
    var allPorts := set p | p in targetPorts;
    if pod.activePorts.None? {
      return allPorts;
    }
    var scanned := pod.activePorts.value;
    active := {};
    for i := 0 to |scanned|
      invariant active == set p | p in targetPorts && p > 0 && Some(p) in scanned[..i]
    {
      assert scanned[..i + 1] == scanned[..i] + [scanned[i]];
      if scanned[i].Some? && scanned[i].value > 0 && scanned[i].value in allPorts {
        active := active + {scanned[i].value};
      }
    }
    assert scanned[..|scanned|] == scanned;
  }

  /** The endpoint was not stored, and is now. */
  predicate Born(before: Life, after: Life) { before.stored.None? && after.stored.Some? }

  lemma RemovedIsGone(life: Life)
    ensures Removed(life).stored.None?
  {
  }

  class Runtime {
    const pollers: seq<Source>
    var collectors: map<string, CollectorState>
    var past: map<string, seq<CollectorState>>
    var events: map<string, seq<EndpointEvent>>

    /** The runtime's part of the life of a name. */
    function Part(n: string): Life
      reads this
    {
      Life(None, if n in collectors then Some(collectors[n]) else None,
           if n in past then past[n] else [], if n in events then events[n] else [])
    }

    constructor (pollers: seq<Source>)
      ensures this.pollers == pollers && forall n :: Part(n) == UNBORN
    {
      this.pollers := pollers;
      collectors, past, events := map[], map[], map[];
    }

    method NewEndpoint(name: string, contextDone: bool) returns (ok: bool)
      modifies this
      ensures (Part(name), ok) == Created(pollers, contextDone, old(Part(name)))
      ensures forall n :: n != name ==> Part(n) == old(Part(n))
    {
      if |pollers| == 0 {
        return true;
      }
      if name in collectors {
        return false;
      }
      var (c, err) := OnStart(NEW_COLLECTOR, Registered(pollers), contextDone);
      if err.Some? {
        past := past[name := Part(name).past + [c]];
        return false;
      }
      collectors := collectors[name := c];
      events := events[name := Part(name).events + [AddOrUpdate]];
      return true;
    }

    method ReleaseEndpoint(name: string)
      modifies this
      ensures Part(name) == Released(old(Part(name)))
      ensures forall n :: n != name ==> Part(n) == old(Part(n))
    {
      events := events[name := Part(name).events + [Delete]];
      if name in collectors {
        var c := collectors[name];
        collectors := collectors - {name};
        past := past[name := Part(name).past + [OnStop(c).0]];
      }
    }
  }

  class Datastore {
    const metricsPort: int
    const runtime: Runtime
    var pool: Option<Pool>
    var pods: map<string, Meta>

    ghost function Env(): Env
      reads runtime
    {
      Endpoints.Env(runtime.pollers, metricsPort)
    }

    ghost function At(n: string): Life
      reads this, runtime
    {
      runtime.Part(n).(stored := if n in pods then Some(pods[n]) else None)
    }

    /** Nothing ever happened to a name that is not a pod rank's. */
    ghost predicate Valid()
      reads this, runtime
    {
      forall n :: !Ranked(n) ==> At(n) == UNBORN
    }

    /** Every name is as the operation leaves it. */
    twostate predicate Did(op: StoreOp)
      reads this, runtime
    {
      forall p, i: nat :: At(EndpointName(p, i)) == LifeStep(Env(), op, p, i, old(At(EndpointName(p, i))))
    }

    constructor (metricsPort: int, runtime: Runtime)
      requires forall n :: runtime.Part(n) == UNBORN
      ensures this.metricsPort == metricsPort && this.runtime == runtime
      ensures Valid() && pool == None && forall n :: At(n) == UNBORN
    {
      this.metricsPort, this.runtime := metricsPort, runtime;
      pool, pods := None, map[];
    }

    method Upsert(name: string, meta: Meta, contextDone: bool) returns (added: bool)
      modifies this, runtime
      ensures pool == old(pool)
      ensures At(name) == Upserted(Env(), meta, contextDone, old(At(name)))
      ensures forall n :: n != name ==> At(n) == old(At(n))
      ensures added <==> Born(old(At(name)), At(name))
    {
      added := false;
      if name !in pods {
        var ok := runtime.NewEndpoint(name, contextDone);
        if !ok {
          return;
        }
        added := true;
      }
      pods := pods[name := meta];
    }

    method Remove(name: string)
      modifies this, runtime
      ensures pool == old(pool) && pods == old(pods) - {name}
      ensures At(name) == Removed(old(At(name)))
      ensures forall n :: n != name ==> At(n) == old(At(n))
    {
      if name in pods {
        pods := pods - {name};
        runtime.ReleaseEndpoint(name);
      }
    }

    /** Releases the endpoints of the given names, in any order. */
    method RemoveAll(names: set<string>)
      modifies this, runtime
      ensures pool == old(pool)
      ensures forall n :: At(n) == if n in names then Removed(old(At(n))) else old(At(n))
    {
      var todo := names;
      while todo != {}
        invariant todo <= names && pool == old(pool)
        invariant forall n :: At(n) == if n in names - todo then Removed(old(At(n))) else old(At(n))
        decreases |todo|
      {
        var name :| name in todo;
        Remove(name);
        todo := todo - {name};
      }
    }

    method PodDelete(podName: string)
      requires Valid()
      modifies this, runtime
      ensures Valid() && pool == old(pool) && Did(DeletePod(podName))
    {
      hide EndpointName;
      RemoveAll(set n | n in pods && pods[n].podName == podName);
    }

    method Clear()
      requires Valid()
      modifies this, runtime
      ensures Valid() && pool == None && Did(StoreOp.Clear)
    {
      hide EndpointName;
      pool := None;
      RemoveAll(pods.Keys);
    }

    /** The ranks below `upTo` that are active have been stored. */
    ghost function Stored(pool: Pool, pod: Pod, cancelled: set<(string, nat)>,
                          upTo: nat, p: string, i: nat, life: Life): Life
      reads runtime
    {
      if p == pod.name && i < upTo && Active(pool, pod, i)
      then Upserted(Env(), MetaOf(Env(), pool, pod, i), (p, i) in cancelled, life) else life
    }

    /** And those below `upTo` that are not have been removed. */
    ghost function Cleared(pool: Pool, pod: Pod, upTo: nat, p: string, i: nat, life: Life): Life {
      if p == pod.name && i < upTo && !Active(pool, pod, i) then Removed(life) else life
    }

    method StoreActive(pool: Pool, pod: Pod, cancelled: set<(string, nat)>, active: set<int>) returns (existed: bool)
      requires Valid() && active == ActivePorts(pod, pool.targetPorts)
      modifies this, runtime
      ensures Valid() && this.pool == old(this.pool)
      ensures forall p, i: nat :: At(EndpointName(p, i))
                               == Stored(pool, pod, cancelled, |pool.targetPorts|, p, i, old(At(EndpointName(p, i))))
      ensures existed <==> forall i: nat :: i < |pool.targetPorts| ==>
                             !Born(old(At(EndpointName(pod.name, i))), At(EndpointName(pod.name, i)))
    {
      hide EndpointName, Upserted, ActivePorts;
      var modelServerMetricsPort := 0;
      if |pool.targetPorts| == 1 {
        modelServerMetricsPort := metricsPort;
      }
      existed := true;
      for rank := 0 to |pool.targetPorts|
        invariant Valid() && this.pool == old(this.pool)
        invariant forall p, i: nat :: At(EndpointName(p, i))
                                   == Stored(pool, pod, cancelled, rank, p, i, old(At(EndpointName(p, i))))
        invariant existed <==> forall i: nat :: i < rank ==>
                                 !Born(old(At(EndpointName(pod.name, i))), At(EndpointName(pod.name, i)))
      {
        NameDecides(pod.name, rank);
        if pool.targetPorts[rank] in active {
          var port, metrics := pool.targetPorts[rank], modelServerMetricsPort;
          if metrics == 0 {
            metrics := port;
          }
          var meta := Meta(pod.name, pod.ip, port, metrics, pod.labels);
          var added := Upsert(EndpointName(pod.name, rank), meta, (pod.name, rank) in cancelled);
          if added {
            existed := false;
          }
        }
      }
    }

    method RemoveInactive(pool: Pool, pod: Pod, active: set<int>)
      requires Valid() && active == ActivePorts(pod, pool.targetPorts)
      modifies this, runtime
      ensures Valid() && this.pool == old(this.pool)
      ensures forall p, i: nat :: At(EndpointName(p, i))
                               == Cleared(pool, pod, |pool.targetPorts|, p, i, old(At(EndpointName(p, i))))
    {
      hide EndpointName, Removed, ActivePorts;
      for rank := 0 to |pool.targetPorts|
        invariant Valid() && this.pool == old(this.pool)
        invariant forall p, i: nat :: At(EndpointName(p, i))
                                    == Cleared(pool, pod, rank, p, i, old(At(EndpointName(p, i))))
      {
        NameDecides(pod.name, rank);
        if pool.targetPorts[rank] !in active {
          Remove(EndpointName(pod.name, rank));
        }
      }
    }

    /** `existed`: no endpoint of the pod was added. */
    method PodUpdateOrAddIfNotExist(pool: Option<Pool>, pod: Pod, cancelled: set<(string, nat)>) returns (existed: bool)
      requires Valid()
      modifies this, runtime
      ensures Valid() && this.pool == old(this.pool)
      ensures Did(if pool.None? then Nothing else UpdateOrAdd(pool.value, pod, cancelled))
      ensures existed <==> pool.None? || forall i: nat :: i < |pool.value.targetPorts| ==>
                             !Born(old(At(EndpointName(pod.name, i))), At(EndpointName(pod.name, i)))
    {
      hide EndpointName, Upserted, Removed, ActivePorts;
      if pool.None? {
        return true;
      }
      var active := ExtractActivePorts(pod, pool.value.targetPorts);
      existed := StoreActive(pool.value, pod, cancelled, active);
      RemoveInactive(pool.value, pod, active);
      forall life: Life
        ensures Removed(life).stored.None?
      {
        RemovedIsGone(life);
      }
    }

    /** The names of a pod's ranks join the active ones. */
    method InsertRanks(activeEndpoints: set<string>, pod: string, count: nat) returns (r: set<string>)
      ensures forall p, i: nat :: EndpointName(p, i) in r <==>
                EndpointName(p, i) in activeEndpoints || (p == pod && i < count)
    {
      hide EndpointName;
      r := activeEndpoints;
      for rank := 0 to count
        invariant forall p, i: nat :: EndpointName(p, i) in r <==>
                    EndpointName(p, i) in activeEndpoints || (p == pod && i < rank)
      {
        NameDecides(pod, rank);
        r := r + {EndpointName(pod, rank)};
      }
    }

    /** The ready pods among `done` have been updated or added. */
    ghost function Synced(pool: Pool, cluster: Cluster, done: set<string>, cancelled: set<(string, nat)>,
                          p: string, i: nat, life: Life): Life
      reads runtime
    {
      if p in done && p in cluster && cluster[p].ready && i < |pool.targetPorts|
      then RankUpdated(Env(), pool, cluster[p], i, (p, i) in cancelled, life) else life
    }

    method SyncPod(pool: Pool, cluster: Cluster, cancelled: set<(string, nat)>, pod: string)
      requires Valid() && Endpoints.Named(cluster) && pod in cluster && cluster[pod].ready
      modifies this, runtime
      ensures Valid() && this.pool == old(this.pool)
      ensures forall p, i: nat :: At(EndpointName(p, i))
                               == Synced(pool, cluster, {pod}, cancelled, p, i, old(At(EndpointName(p, i))))
    {
      hide EndpointName, RankUpdated, Born;
      var _ := PodUpdateOrAddIfNotExist(Some(pool), cluster[pod], cancelled);
    }

    method SyncListed(pool: Pool, cluster: Cluster, listed: set<string>, cancelled: set<(string, nat)>)
      returns (activeEndpoints: set<string>)
      requires Valid() && Endpoints.Named(cluster) && listed <= cluster.Keys
      modifies this, runtime
      ensures Valid() && this.pool == old(this.pool)
      ensures forall p, i: nat :: EndpointName(p, i) in activeEndpoints <==>
                p in listed && cluster[p].ready && i < |pool.targetPorts|
      ensures forall p, i: nat :: At(EndpointName(p, i))
                               == Synced(pool, cluster, listed, cancelled, p, i, old(At(EndpointName(p, i))))
    {
      hide EndpointName, RankUpdated, Born, ActivePorts, Matches;
      var todo := listed;
      activeEndpoints := {};
      while todo != {}
        invariant Valid() && this.pool == old(this.pool) && todo <= listed
        invariant forall p, i: nat :: EndpointName(p, i) in activeEndpoints <==>
                    p in listed - todo && cluster[p].ready && i < |pool.targetPorts|
        invariant forall p, i: nat :: At(EndpointName(p, i))
                                   == Synced(pool, cluster, listed - todo, cancelled, p, i, old(At(EndpointName(p, i))))
        decreases |todo|
      {
        var pod :| pod in todo;
        if cluster[pod].ready {
          activeEndpoints := InsertRanks(activeEndpoints, pod, |pool.targetPorts|);
          SyncPod(pool, cluster, cancelled, pod);
        }
        todo := todo - {pod};
      }
    }

    method PodResyncAll(pool: Pool, cluster: Cluster, cancelled: set<(string, nat)>)
      requires Valid() && Endpoints.Named(cluster)
      modifies this, runtime
      ensures Valid() && this.pool == old(this.pool)
      ensures Did(Resync(pool, cluster, cancelled))
    {
      hide EndpointName, Matches, RankUpdated;
      var listed := set p | p in cluster && Matches(pool, cluster[p].labels);
      var activeEndpoints := SyncListed(pool, cluster, listed, cancelled);
      RemoveAll(set n | n in pods && n !in activeEndpoints);
    }

    method PoolSet(cluster: Cluster, newPool: Option<Pool>, listFails: bool, cancelled: set<(string, nat)>)
      returns (ok: bool)
      requires Valid() && Endpoints.Named(cluster)
      modifies this, runtime
      ensures Valid() && pool == newPool
      ensures newPool.None? ==> Did(StoreOp.Clear) && ok
      ensures newPool.Some? && Changed(old(pool), newPool.value) && !listFails ==>
                Did(Resync(newPool.value, cluster, cancelled)) && ok
      ensures newPool.Some? && Changed(old(pool), newPool.value) && listFails ==> Did(Nothing) && !ok
      ensures newPool.Some? && !Changed(old(pool), newPool.value) ==> Did(Nothing) && ok
    {
      if newPool.None? {
        Clear();
        return true;
      }
      var oldPool := pool;
      pool := newPool;
      assert Did(Nothing);
      hide LifeStep, EndpointName;
      var selectorChanged := oldPool.None? || oldPool.value.selector != newPool.value.selector;
      var targetPortsChanged := oldPool.Some? && oldPool.value.targetPorts != newPool.value.targetPorts;
      if selectorChanged || targetPortsChanged {
        if listFails {
          return false;
        }
        PodResyncAll(newPool.value, cluster, cancelled);
      }
      return true;
    }
  }

  /** The watched pods, the reconcile queue and the store they feed. */
  class Controller {
    const store: Datastore
    var cluster: Cluster
    var queue: set<string>
    ghost var stale: bool

    ghost function View(): Control
      reads this, store
    {
      Control(cluster, queue, store.pool, stale)
    }

    ghost predicate Valid()
      reads this, store, store.runtime
    {
      store.Valid() && Endpoints.Named(cluster)
    }

    constructor (store: Datastore)
      requires store.Valid() && store.pool == None
      ensures this.store == store && Valid() && View() == ControlAfter([])
    {
      this.store := store;
      cluster, queue, stale := map[], {}, false;
    }

    method PodApplied(pod: Pod)
      requires Valid()
      modifies this
      ensures Valid() && View() == ControlStep(old(View()), Event.PodApplied(pod))
    {
      var before := Lookup(cluster, pod.name);
      cluster := cluster[pod.name := pod];
      if (before.Some? && LabelsMatch(store.pool, before.value.labels)) || LabelsMatch(store.pool, pod.labels) {
        queue := queue + {pod.name};
      }
    }

    method PodGone(name: string)
      requires Valid()
      modifies this
      ensures Valid() && View() == ControlStep(old(View()), Event.PodGone(name))
    {
      if name in cluster && LabelsMatch(store.pool, cluster[name].labels) {
        queue := queue + {name};
      }
      cluster := cluster - {name};
    }

    method Reconcile(name: string, getFails: bool, cancelled: set<(string, nat)>)
      requires Valid()
      modifies this, store, store.runtime
      ensures Valid() && View() == ControlStep(old(View()), Event.Reconcile(name, getFails, cancelled))
      ensures store.Did(StoreOpOf(old(View()), Event.Reconcile(name, getFails, cancelled)))
    {
      assert store.Did(Nothing);
      hide EndpointName, LifeStep, Matches;
      if store.pool.None? {
        queue := queue - {name};
        return;
      }
      if getFails {
        return;
      }
      queue := queue - {name};
      if name !in cluster {
        store.PodDelete(name);
        return;
      }
      var pod := cluster[name];
      if !pod.ready || !LabelsMatch(store.pool, pod.labels) {
        store.PodDelete(pod.name);
      } else {
        var _ := store.PodUpdateOrAddIfNotExist(store.pool, pod, cancelled);
      }
    }

    method PoolSet(pool: Option<Pool>, listFails: bool, cancelled: set<(string, nat)>)
      requires Valid()
      modifies this, store, store.runtime
      ensures Valid() && View() == ControlStep(old(View()), Event.PoolSet(pool, listFails, cancelled))
      ensures store.Did(StoreOpOf(old(View()), Event.PoolSet(pool, listFails, cancelled)))
    {
      hide EndpointName, LifeStep;
      stale := if pool.None? then false else if Changed(store.pool, pool.value) then listFails else stale;
      var _ := store.PoolSet(cluster, pool, listFails, cancelled);
    }

    method Handle(e: Event)
      requires Valid()
      modifies this, store, store.runtime
      ensures Valid() && View() == ControlStep(old(View()), e) && store.Did(StoreOpOf(old(View()), e))
    {
      assert store.Did(Nothing);
      hide EndpointName, LifeStep, ControlStep;
      match e {
        case PodApplied(pod) => PodApplied(pod);
        case PodGone(name) => PodGone(name);
        case Reconcile(name, getFails, cancelled) => Reconcile(name, getFails, cancelled);
        case PoolSet(pool, listFails, cancelled) => PoolSet(pool, listFails, cancelled);
      }
    }

    /** A whole run from the start leaves every name with the life the events give it. */
    method Run(events: seq<Event>)
      requires Valid() && View() == ControlAfter([]) && forall n :: store.At(n) == UNBORN
      modifies this, store, store.runtime
      ensures Valid() && View() == ControlAfter(events)
      ensures forall p, i: nat :: store.At(EndpointName(p, i)) == LifeAfter(store.Env(), events, p, i)
    {
      assert forall p, i: nat :: LifeAfter(store.Env(), [], p, i) == UNBORN;
      hide EndpointName, LifeStep, ControlStep, StoreOpOf;
      for k := 0 to |events|
        invariant Valid() && View() == ControlAfter(events[..k])
        invariant forall p, i: nat :: store.At(EndpointName(p, i)) == LifeAfter(store.Env(), events[..k], p, i)
      {
        assert events[..k + 1][..k] == events[..k];
        Handle(events[k]);
      }
      assert events[..|events|] == events;
    }
  }
}
