// Data dependencies among plugins (pkg/epp/datalayer/data_graph.go), the reordering of the data plugins
// (pkg/epp/requestcontrol/request_control_config.go) and their execution (plugin_executor.go).
module PluginGraph {
  import opened Wrappers
  import opened TopologicalSort

  type Key(==, !new)
  type DataType(==, !new)

  /** The plugin interfaces that decide a plugin's layer. */
  datatype Facet =
    | FairnessPolicy | OrderingPolicy
    | PrepareData | Admission | PreRequest | ResponseHeader
    | ProfileHandler | Filter | Scorer | Picker

  /** `produces` and `consumes` are None when the plugin does not implement the interface. */
  datatype Plugin = Plugin(
    name: Name, facets: set<Facet>, produces: Option<map<Key, DataType>>, consumes: Option<map<Key, DataType>>)

  const FLOW_CONTROL_LAYER := 0
  const REQUEST_CONTROL_LAYER := 1
  const SCHEDULING_LAYER := 2
  const DEFAULT_LAYER := -1

  function Layer(p: Plugin): int {
    if p.facets * {FairnessPolicy, OrderingPolicy} != {} then FLOW_CONTROL_LAYER
    else if p.facets * {PrepareData, Admission, PreRequest, ResponseHeader} != {} then REQUEST_CONTROL_LAYER
    else if p.facets * {ProfileHandler, Filter, Scorer, Picker} != {} then SCHEDULING_LAYER
    else DEFAULT_LAYER
  }

  datatype GraphError = TypeMismatch(key: Key) | LayerOrder(producer: Name, consumer: Name) | CycleDetected

  // ---- One producer and one consumer ----

  function SharedKeys(p: Plugin, c: Plugin): set<Key> {
    if p.produces.Some? && c.consumes.Some? then p.produces.value.Keys * c.consumes.value.Keys else {}
  }

  predicate Agrees(p: Plugin, c: Plugin, k: Key) {
    k in SharedKeys(p, c) && p.produces.value[k] == c.consumes.value[k]
  }

  /** What examining the produced keys in the given order concludes: whether there is an edge. */
  function PairCheck(order: seq<Key>, p: Plugin, c: Plugin): Result<bool, GraphError> {
    if order == [] then Ok(false)
    else if order[0] in SharedKeys(p, c) then
      if !Agrees(p, c, order[0]) then Err(TypeMismatch(order[0]))
      else if Layer(p) > Layer(c) then Err(LayerOrder(p.name, c.name))
      else Ok(true)
    else PairCheck(order[1..], p, c)
  }

  method CheckPair(order: seq<Key>, p: Plugin, c: Plugin) returns (r: Result<bool, GraphError>)
    ensures r == PairCheck(order, p, c)
  {
    for i := 0 to |order|
      invariant PairCheck(order, p, c) == PairCheck(order[i..], p, c)
    {
      assert order[i..][0] == order[i] && order[i..][1..] == order[i + 1..];
      if order[i] in SharedKeys(p, c) {
        if p.produces.value[order[i]] != c.consumes.value[order[i]] {
          return Err(TypeMismatch(order[i]));
        }
        if Layer(p) > Layer(c) {
          return Err(LayerOrder(p.name, c.name));
        }
        return Ok(true);
      }
    }
    return Ok(false);
  }

  ghost predicate Enumerates(order: seq<Key>, p: Plugin) {
    p.produces.Some? && forall k :: k in order <==> k in p.produces.value
  }

  /** The first shared key in the order decides; everything follows from it. */
  lemma {:induction false} PairCheckFirst(order: seq<Key>, p: Plugin, c: Plugin)
    ensures forall k :: k in order ==> (PairCheck(order, p, c) == Ok(false) ==> k !in SharedKeys(p, c))
    ensures PairCheck(order, p, c) != Ok(false) ==>
              exists i :: 0 <= i < |order| && order[i] in SharedKeys(p, c)
                       && PairCheck(order, p, c) == PairCheck([order[i]], p, c)
    decreases |order|
  {
    if order != [] {
      if order[0] in SharedKeys(p, c) {
        assert PairCheck(order, p, c) == PairCheck([order[0]], p, c);
      } else {
        PairCheckFirst(order[1..], p, c);
        if PairCheck(order, p, c) != Ok(false) {
          var i :| 0 <= i < |order[1..]| && order[1..][i] in SharedKeys(p, c)
                && PairCheck(order[1..], p, c) == PairCheck([order[1..][i]], p, c);
          assert order[i + 1] == order[1..][i];
        }
      }
    }
  }

  /** The consumer asks for a key the producer gives, and for it at that type. */
  predicate Feeds(p: Plugin, c: Plugin, k: Key) {
    p.produces.Some? && c.consumes.Some? && k in p.produces.value && k in c.consumes.value
  }

  predicate FeedsAtType(p: Plugin, c: Plugin, k: Key) { Feeds(p, c, k) && p.produces.value[k] == c.consumes.value[k] }

  lemma FeedsIff(p: Plugin, c: Plugin)
    ensures forall k :: k in SharedKeys(p, c) <==> Feeds(p, c, k)
    ensures forall k :: Agrees(p, c, k) <==> FeedsAtType(p, c, k)
    ensures SharedKeys(p, c) != {} <==> exists k :: Feeds(p, c, k)
  {
    if SharedKeys(p, c) != {} {
      var k :| k in SharedKeys(p, c);
      assert Feeds(p, c, k);
    }
  }

  lemma PairCheckOutcome(order: seq<Key>, p: Plugin, c: Plugin)
    requires Enumerates(order, p)
    ensures match PairCheck(order, p, c)
            case Ok(linked) =>
              && (linked <==> SharedKeys(p, c) != {})
              && (linked ==> Layer(p) <= Layer(c) && exists k :: Agrees(p, c, k))
            case Err(TypeMismatch(k)) => k in SharedKeys(p, c) && !Agrees(p, c, k)
            case Err(LayerOrder(a, b)) => a == p.name && b == c.name && SharedKeys(p, c) != {} && Layer(p) > Layer(c)
            case Err(CycleDetected) => false
  {
    PairCheckFirst(order, p, c);
  }

  /** Whatever the iteration order: an edge exactly for a shared key, in a legal layer order, and with at least
      one key whose type agrees; an error only for a real conflict. */
  lemma PairCheckMeaning(order: seq<Key>, p: Plugin, c: Plugin)
    requires Enumerates(order, p)
    ensures match PairCheck(order, p, c)
            case Ok(linked) =>
              && (linked <==> exists k :: Feeds(p, c, k))
              && (linked ==> !TooLate(p, c) && exists k :: FeedsAtType(p, c, k))
            case Err(TypeMismatch(k)) => Feeds(p, c, k) && !FeedsAtType(p, c, k)
            case Err(LayerOrder(a, b)) => a == p.name && b == c.name && (exists k :: Feeds(p, c, k)) && TooLate(p, c)
            case Err(CycleDetected) => false
  {
    hide PairCheck, SharedKeys, Agrees, Layer, TooLate, Feeds, FeedsAtType, Enumerates;
    PairCheckOutcome(order, p, c);
    FeedsIff(p, c);
    TooLateIff(p, c);
  }

  /** The producer runs after the consumer. Plugins with no facet come first, then those with a flow-control facet, then
      those with one of request control, then the rest. */
  predicate TooLate(p: Plugin, c: Plugin) {
    && p.facets != {}
    && (|| c.facets == {}
        || (HasFlowControl(c) && !HasFlowControl(p))
        || (HasRequestControl(c) && !HasFlowControl(p) && !HasRequestControl(p)))
  }

  predicate HasFlowControl(p: Plugin) { FairnessPolicy in p.facets || OrderingPolicy in p.facets }

  predicate HasRequestControl(p: Plugin) {
    PrepareData in p.facets || Admission in p.facets || PreRequest in p.facets || ResponseHeader in p.facets
  }

  lemma TooLateIff(p: Plugin, c: Plugin)
    ensures TooLate(p, c) <==> Layer(p) > Layer(c)
  {
    LayerByFacets(p);
    LayerByFacets(c);
    hide Layer;
  }

  lemma LayerByFacets(p: Plugin)
    ensures Layer(p)
         == if p.facets == {} then -1 else if HasFlowControl(p) then 0 else if HasRequestControl(p) then 1 else 2
  {
    var flow := p.facets * {FairnessPolicy, OrderingPolicy};
    var control := p.facets * {PrepareData, Admission, PreRequest, ResponseHeader};
    var scheduling := p.facets * {ProfileHandler, Filter, Scorer, Picker};
    forall f | f in p.facets
      ensures f in flow || f in control || f in scheduling
    {
      assert f.FairnessPolicy? || f.OrderingPolicy? || f.PrepareData? || f.Admission? || f.PreRequest?
             || f.ResponseHeader? || f.ProfileHandler? || f.Filter? || f.Scorer? || f.Picker?;
    }
    assert p.facets == flow + control + scheduling;
    assert HasFlowControl(p) <==> flow != {} by {
      assert flow != {} ==> exists f :: f in flow;
      assert FairnessPolicy in p.facets ==> FairnessPolicy in flow;
      assert OrderingPolicy in p.facets ==> OrderingPolicy in flow;
    }
    assert HasRequestControl(p) <==> control != {} by {
      assert control != {} ==> exists f :: f in control;
      assert PrepareData in p.facets ==> PrepareData in control;
      assert Admission in p.facets ==> Admission in control;
      assert PreRequest in p.facets ==> PreRequest in control;
      assert ResponseHeader in p.facets ==> ResponseHeader in control;
    }
  }

  /** With a shared key, all types agreeing, the pair is linked unless the producer comes too late. */
  lemma LinkedUnlessTooLate(order: seq<Key>, p: Plugin, c: Plugin)
    requires Enumerates(order, p)
    requires (exists k :: Feeds(p, c, k)) && forall k :: Feeds(p, c, k) ==> FeedsAtType(p, c, k)
    ensures PairCheck(order, p, c) == if TooLate(p, c) then Err(LayerOrder(p.name, c.name)) else Ok(true)
  {
    hide TooLate, PairCheck, Enumerates;
    PairCheckMeaning(order, p, c);
  }

  /** A scorer may read what a data plugin prepares, not the other way round. */
  lemma ScorersReadPreparedData(order: seq<Key>, scorer: Plugin, data: Plugin)
    requires scorer.facets == {Scorer} && data.facets == {PrepareData}
    ensures Enumerates(order, scorer) && (exists k :: Feeds(scorer, data, k)) ==> PairCheck(order, scorer, data).Err?
    ensures Enumerates(order, data) && (forall k :: Feeds(data, scorer, k) ==> FeedsAtType(data, scorer, k)) ==>
              PairCheck(order, data, scorer).Ok?
  {
    hide PairCheck, Enumerates;
    if Enumerates(order, scorer) {
      PairCheckMeaning(order, scorer, data);
    }
    if Enumerates(order, data) {
      PairCheckMeaning(order, data, scorer);
    }
    assert Scorer in scorer.facets && PrepareData in data.facets;
  }

  /** The type check looks at the first shared key only: it is sure to reject mismatched types exactly when no
      shared key agrees, and sure to accept (the layers permitting) exactly when all of them do. */
  lemma TypeCheckIff(p: Plugin, c: Plugin, keys: seq<Key>)
    requires Enumerates(keys, p) && !TooLate(p, c)
    ensures (forall order :: Enumerates(order, p) ==> PairCheck(order, p, c).Ok?)
       <==> (forall k :: Feeds(p, c, k) ==> FeedsAtType(p, c, k))
    ensures (exists order :: Enumerates(order, p) && PairCheck(order, p, c).Ok?)
       <==> ((forall k :: !Feeds(p, c, k)) || exists k :: FeedsAtType(p, c, k))
  {
    hide SharedKeys, Agrees, Layer, TooLate, Feeds, FeedsAtType, Enumerates, PairCheck;
    FeedsIff(p, c);
    TooLateIff(p, c);
    FirstKeyDecides(p, c, keys);
  }

  lemma FirstKeyDecides(p: Plugin, c: Plugin, keys: seq<Key>)
    requires Enumerates(keys, p) && Layer(p) <= Layer(c)
    ensures (forall order :: Enumerates(order, p) ==> PairCheck(order, p, c).Ok?)
       <==> (forall k :: k in SharedKeys(p, c) ==> Agrees(p, c, k))
    ensures (exists order :: Enumerates(order, p) && PairCheck(order, p, c).Ok?)
       <==> (SharedKeys(p, c) == {} || exists k :: Agrees(p, c, k))
  {
    if k :| k in SharedKeys(p, c) && !Agrees(p, c, k) {
      assert Enumerates([k] + keys, p);
      assert PairCheck([k] + keys, p, c).Err?;
    } else {
      forall order | Enumerates(order, p)
        ensures PairCheck(order, p, c).Ok?
      {
        PairCheckOutcome(order, p, c);
      }
    }
    if k :| Agrees(p, c, k) {
      assert Enumerates([k] + keys, p);
      assert PairCheck([k] + keys, p, c).Ok?;
    } else {
      forall order | Enumerates(order, p)
        ensures PairCheck(order, p, c).Ok? ==> SharedKeys(p, c) == {}
      {
        PairCheckOutcome(order, p, c);
      }
      if SharedKeys(p, c) == {} {
        PairCheckOutcome(keys, p, c);
      }
    }
  }

  // ---- The dependency graph ----

  type Registry = map<Name, Plugin>

  /** Plugins by their own name. */
  predicate Named(r: Registry) {
    forall n :: n in r ==> r[n].name == n
  }

  predicate Producers(r: Registry) { Named(r) && forall n :: n in r ==> r[n].produces.Some? }

  predicate Consumers(r: Registry) { Named(r) && forall n :: n in r ==> r[n].consumes.Some? }

  /** `c` consumes something that `p` produces. */
  predicate Linked(producers: Registry, consumers: Registry, p: Name, c: Name) {
    p in producers && c in consumers && p != c && SharedKeys(producers[p], consumers[c]) != {}
  }

  /** A link the checks have passed. */
  predicate Sound(p: Plugin, c: Plugin) {
    Layer(p) <= Layer(c) && exists k :: k in SharedKeys(p, c) && Agrees(p, c, k)
  }

  ghost predicate Conflict(producers: Registry, consumers: Registry, e: GraphError) {
    match e
    case TypeMismatch(k) =>
      exists p, c :: Linked(producers, consumers, p, c) && k in SharedKeys(producers[p], consumers[c])
                  && !Agrees(producers[p], consumers[c], k)
    case LayerOrder(p, c) => Linked(producers, consumers, p, c) && Layer(producers[p]) > Layer(consumers[c])
    case CycleDetected => false
  }

  /** `g` has exactly the edges of the producers in `done`, from consumer to producer. */
  ghost predicate EdgesOf(g: Graph, producers: Registry, consumers: Registry, done: set<Name>) {
    && g.Keys == producers.Keys + consumers.Keys
    && forall c, p :: c in g ==> (p in g[c] <==> p in done && Linked(producers, consumers, p, c))
  }

  ghost predicate AllSound(producers: Registry, consumers: Registry, done: set<Name>) {
    forall p, c :: p in done && Linked(producers, consumers, p, c) ==> Sound(producers[p], consumers[c])
  }

  method EnumerateKeys(p: Plugin) returns (order: seq<Key>)
    requires p.produces.Some?
    ensures Enumerates(order, p)
  {
    order := [];
    var todo := p.produces.value.Keys;
    while todo != {}
      invariant todo <= p.produces.value.Keys
      invariant forall k :: k in order <==> k in p.produces.value.Keys - todo
      decreases |todo|
    {
      var k :| k in todo;
      todo := todo - {k};
      order := order + [k];
    }
  }

  /** One producer against one consumer of another name. */
  method CheckLink(producers: Registry, consumers: Registry, p: Name, c: Name) returns (r: Result<bool, GraphError>)
    requires Producers(producers) && Consumers(consumers) && p in producers && c in consumers && p != c
    ensures r.Ok? ==> (r.value <==> Linked(producers, consumers, p, c))
    ensures r.Ok? && r.value ==> Sound(producers[p], consumers[c])
    ensures r.Err? ==> Conflict(producers, consumers, r.error)
  {
    var order := EnumerateKeys(producers[p]);
    r := CheckPair(order, producers[p], consumers[c]);
    PairCheckOutcome(order, producers[p], consumers[c]);
    assert forall k :: Agrees(producers[p], consumers[c], k) ==> k in SharedKeys(producers[p], consumers[c]);
  }

  /** `g` is `dag` with edges to `p` from the consumers linked to it, those in `todo` excepted. */
  ghost predicate EdgesAdded(g: Graph, dag: Graph, producers: Registry, consumers: Registry, p: Name, todo: set<Name>) {
    && g.Keys == dag.Keys
    && forall c, q :: c in g ==>
         (q in g[c] <==> q in dag[c] || (q == p && c !in todo && Linked(producers, consumers, p, c)))
  }

  ghost predicate SoundExcept(producers: Registry, consumers: Registry, p: Name, todo: set<Name>)
    requires p in producers
  {
    forall c :: c !in todo && Linked(producers, consumers, p, c) ==> Sound(producers[p], consumers[c])
  }

  lemma AddEdge(g: Graph, dag: Graph, producers: Registry, consumers: Registry, p: Name, todo: set<Name>, c: Name)
    requires EdgesAdded(g, dag, producers, consumers, p, todo) && c in todo && c in g
    ensures var h := if Linked(producers, consumers, p, c) then g[c := g[c] + [p]] else g;
            EdgesAdded(h, dag, producers, consumers, p, todo - {c})
  {
    hide Linked;
  }

  lemma AllEdgesAdded(g: Graph, dag: Graph, producers: Registry, consumers: Registry, p: Name, done: set<Name>)
    requires EdgesOf(dag, producers, consumers, done) && EdgesAdded(g, dag, producers, consumers, p, {})
    ensures EdgesOf(g, producers, consumers, done + {p})
  {
    hide Linked;
  }

  /** The inner loop: one producer against every consumer, in any order. */
  method LinkProducer(producers: Registry, consumers: Registry, pName: Name, dag: Graph, ghost done: set<Name>)
    returns (r: Result<Graph, GraphError>)
    requires Producers(producers) && Consumers(consumers) && pName in producers
    requires EdgesOf(dag, producers, consumers, done)
    ensures r.Ok? ==> EdgesOf(r.value, producers, consumers, done + {pName})
    ensures r.Ok? ==> SoundExcept(producers, consumers, pName, {})
    ensures r.Err? ==> Conflict(producers, consumers, r.error)
  {
    var g, todo := dag, consumers.Keys;
    assert dag.Keys == producers.Keys + consumers.Keys;
    assert EdgesAdded(g, dag, producers, consumers, pName, todo);
    assert SoundExcept(producers, consumers, pName, todo);
    while todo != {}
      invariant todo <= consumers.Keys && g.Keys == producers.Keys + consumers.Keys
      invariant EdgesAdded(g, dag, producers, consumers, pName, todo)
      invariant SoundExcept(producers, consumers, pName, todo)
      decreases |todo|
    {
      var cName :| cName in todo;
      AddEdge(g, dag, producers, consumers, pName, todo, cName);
      if cName != pName {
        var linked := CheckLink(producers, consumers, pName, cName);
        if linked.Err? {
          return Err(linked.error);
        }
        if linked.value {
          g := g[cName := g[cName] + [pName]];
        }
      }
      todo := todo - {cName};
    }
    AllEdgesAdded(g, dag, producers, consumers, pName, done);
    r := Ok(g);
  }

  lemma SoundGrows(producers: Registry, consumers: Registry, done: set<Name>, p: Name)
    requires AllSound(producers, consumers, done) && p in producers && SoundExcept(producers, consumers, p, {})
    ensures AllSound(producers, consumers, done + {p})
  {
    hide Linked, Sound;
  }

  function NoEdges(producers: Registry, consumers: Registry): Graph {
    map n | n in producers.Keys + consumers.Keys :: []
  }

  lemma NoEdgesYet(producers: Registry, consumers: Registry)
    ensures EdgesOf(NoEdges(producers, consumers), producers, consumers, {}) && AllSound(producers, consumers, {})
  {
    hide Linked, Sound;
  }

  method BuildDAG(producers: Registry, consumers: Registry) returns (r: Result<Graph, GraphError>)
    requires Producers(producers) && Consumers(consumers)
    ensures r.Ok? ==> EdgesOf(r.value, producers, consumers, producers.Keys)
    ensures r.Ok? ==> AllSound(producers, consumers, producers.Keys)
    ensures r.Err? ==> Conflict(producers, consumers, r.error)
  {
    hide Linked, Sound, Conflict, EdgesOf, AllSound, SoundExcept, NoEdges;
    var dag, todo := NoEdges(producers, consumers), producers.Keys;
    NoEdgesYet(producers, consumers);
    assert producers.Keys - todo == {};
    while todo != {}
      invariant todo <= producers.Keys
      invariant EdgesOf(dag, producers, consumers, producers.Keys - todo)
      invariant AllSound(producers, consumers, producers.Keys - todo)
      decreases |todo|
    {
      var pName :| pName in todo;
      assert producers.Keys - (todo - {pName}) == (producers.Keys - todo) + {pName};
      var linked := LinkProducer(producers, consumers, pName, dag, producers.Keys - todo);
      if linked.Err? {
        return linked;
      }
      SoundGrows(producers, consumers, producers.Keys - todo, pName);
      dag := linked.value;
      todo := todo - {pName};
    }
    assert producers.Keys - {} == producers.Keys;
    r := Ok(dag);
  }

  // ---- Validation and ordering ----

  /** The plugins by name; a later plugin of the same name replaces an earlier one. */
  function ByName(plugins: seq<Plugin>): (r: Registry)
    ensures Named(r)
  {
    if plugins == [] then map[]
    else ByName(plugins[..|plugins| - 1])[plugins[|plugins| - 1].name := plugins[|plugins| - 1]]
  }

  function ProducersOf(r: Registry): Registry { map n | n in r && r[n].produces.Some? :: r[n] }

  function ConsumersOf(r: Registry): Registry { map n | n in r && r[n].consumes.Some? :: r[n] }

  /** `c` depends on `p`, among the given plugins. */
  predicate DependsOn(r: Registry, c: Name, p: Name) {
    Linked(ProducersOf(r), ConsumersOf(r), p, c)
  }

  /** That is: it asks for a key that the other, a different plugin, gives. */
  lemma DependsIff(r: Registry, c: Name, p: Name)
    ensures DependsOn(r, c, p) <==> p in r && c in r && p != c && exists k :: Feeds(r[p], r[c], k)
    ensures DependsOn(r, c, p) && Sound(r[p], r[c]) ==> !TooLate(r[p], r[c]) && exists k :: FeedsAtType(r[p], r[c], k)
  {
    hide SharedKeys, Agrees, TooLate, Layer;
    if p in r && c in r {
      FeedsIff(r[p], r[c]);
      TooLateIff(r[p], r[c]);
    }
  }

  ghost predicate DependencyCycle(r: Registry) {
    exists p: seq<Name> :: |p| >= 2 && p[0] == p[|p| - 1]
      && forall i :: 0 <= i < |p| - 1 ==> DependsOn(r, p[i], p[i + 1])
  }

  /** Every producer or consumer once, each after all it depends on. */
  ghost predicate ValidOrder(r: Registry, order: seq<Name>) {
    && Distinct(order)
    && (forall n :: n in order <==> n in r && (r[n].produces.Some? || r[n].consumes.Some?))
    && (forall i, p :: 0 <= i < |order| && DependsOn(r, order[i], p) ==> p in order[..i])
  }

  /** No producer sits in a later layer than its consumer, and each dependency has a key of agreeing type. */
  ghost predicate LayersRespected(r: Registry) {
    forall c, p :: DependsOn(r, c, p) ==> Sound(r[p], r[c])
  }

  lemma EdgesAreDependencies(r: Registry, g: Graph)
    requires EdgesOf(g, ProducersOf(r), ConsumersOf(r), ProducersOf(r).Keys)
    ensures forall c, p :: Edge(g, c, p) <==> DependsOn(r, c, p)
    ensures Nodes(g) == ProducersOf(r).Keys + ConsumersOf(r).Keys
  {
    hide SharedKeys;
  }

  lemma CycleIsDependencyCycle(r: Registry, g: Graph)
    requires forall c, p :: Edge(g, c, p) <==> DependsOn(r, c, p)
    ensures HasCycle(g) <==> DependencyCycle(r)
  {
    hide DependsOn, Edge;
    if HasCycle(g) {
      var p :| Cycle(g, p);
      assert forall i :: 0 <= i < |p| - 1 ==> Edge(g, p[i], p[i + 1]);
    }
    if DependencyCycle(r) {
      var p: seq<Name> :| |p| >= 2 && p[0] == p[|p| - 1]
        && forall i :: 0 <= i < |p| - 1 ==> DependsOn(r, p[i], p[i + 1]);
      assert Cycle(g, p);
    }
  }

  method ValidateAndOrder(plugins: seq<Plugin>) returns (r: Result<seq<Name>, GraphError>)
    ensures r.Ok? ==> ValidOrder(ByName(plugins), r.value) && LayersRespected(ByName(plugins))
    ensures r.Ok? ==> !DependencyCycle(ByName(plugins))
    ensures r.Err? && r.error.CycleDetected? ==> DependencyCycle(ByName(plugins))
    ensures r.Err? && !r.error.CycleDetected? ==>
              Conflict(ProducersOf(ByName(plugins)), ConsumersOf(ByName(plugins)), r.error)
  {
    var pluginMap: Registry := map[];
    for i := 0 to |plugins|
      invariant pluginMap == ByName(plugins[..i])
    {
      assert plugins[..i + 1][..i] == plugins[..i];
      pluginMap := pluginMap[plugins[i].name := plugins[i]];
    }
    assert plugins[..|plugins|] == plugins;
    r := OrderRegistry(pluginMap);
  }

  method OrderRegistry(pluginMap: Registry) returns (r: Result<seq<Name>, GraphError>)
    requires Named(pluginMap)
    ensures r.Ok? ==> ValidOrder(pluginMap, r.value) && LayersRespected(pluginMap) && !DependencyCycle(pluginMap)
    ensures r.Err? && r.error.CycleDetected? ==> DependencyCycle(pluginMap)
    ensures r.Err? && !r.error.CycleDetected? ==> Conflict(ProducersOf(pluginMap), ConsumersOf(pluginMap), r.error)
  {
    var producers, consumers := ProducersOf(pluginMap), ConsumersOf(pluginMap);
    var dag := BuildDAG(producers, consumers);
    if dag.Err? {
      assert !dag.error.CycleDetected?;
      return Err(dag.error);
    }
    EdgesAreDependencies(pluginMap, dag.value);
    CycleIsDependencyCycle(pluginMap, dag.value);
    assert LayersRespected(pluginMap) by {
    }
    var order := TopologicalSort.TopologicalSort(dag.value);
    if order.None? {
      return Err(CycleDetected);
    }
    ToValidOrder(pluginMap, dag.value, order.value);
    r := Ok(order.value);
  }

  lemma ToValidOrder(r: Registry, g: Graph, order: seq<Name>)
    requires forall c, p :: Edge(g, c, p) <==> DependsOn(r, c, p)
    requires Nodes(g) == ProducersOf(r).Keys + ConsumersOf(r).Keys
    requires Distinct(order) && Elements(order) == Nodes(g) && DependenciesFirst(g, order)
    ensures ValidOrder(r, order)
  {
    hide DependsOn, Edge, Nodes;
    forall n
      ensures n in order <==> n in r && (r[n].produces.Some? || r[n].consumes.Some?)
    {
      assert n in order <==> n in Elements(order);
    }
  }

  // ---- Reordering and running the data plugins ----

  /** The named plugins of `plugins` in the order of `sorted`; names it does not have are skipped. */
  function Reordered(plugins: seq<Plugin>, sorted: seq<Name>): seq<Plugin> {
    if sorted == [] then []
    else
      var n := sorted[|sorted| - 1];
      Reordered(plugins, sorted[..|sorted| - 1]) + if n in ByName(plugins) then [ByName(plugins)[n]] else []
  }

  class Config {
    var prepareDataPlugins: seq<Plugin>

    constructor (plugins: seq<Plugin>)
      ensures prepareDataPlugins == plugins
    {
      prepareDataPlugins := plugins;
    }

    method OrderPrepareDataPlugins(sorted: seq<Name>)
      modifies this
      ensures prepareDataPlugins == Reordered(old(prepareDataPlugins), sorted)
    {
      var nameToPlugin: Registry := map[];
      for i := 0 to |prepareDataPlugins|
        invariant prepareDataPlugins == old(prepareDataPlugins)
        invariant nameToPlugin == ByName(prepareDataPlugins[..i])
      {
        assert prepareDataPlugins[..i + 1][..i] == prepareDataPlugins[..i];
        nameToPlugin := nameToPlugin[prepareDataPlugins[i].name := prepareDataPlugins[i]];
      }
      assert prepareDataPlugins[..|prepareDataPlugins|] == prepareDataPlugins;
      var sortedPlugins: seq<Plugin> := [];
      for i := 0 to |sorted|
        invariant prepareDataPlugins == old(prepareDataPlugins)
        invariant sortedPlugins == Reordered(prepareDataPlugins, sorted[..i])
      {
        assert sorted[..i + 1][..i] == sorted[..i];
        if sorted[i] in nameToPlugin {
          sortedPlugins := sortedPlugins + [nameToPlugin[sorted[i]]];
        }
      }
      assert sorted[..|sorted|] == sorted;
      prepareDataPlugins := sortedPlugins;
    }
  }

  /** A plugin was run, and succeeded or failed. */
  datatype Ran = Ran(plugin: Plugin, ok: bool)

  /** Runs until the first failure; `fails` says which plugins fail on this request. */
  function Executed(plugins: seq<Plugin>, fails: Plugin -> bool): seq<Ran> {
    if plugins == [] then []
    else if fails(plugins[0]) then [Ran(plugins[0], false)]
    else [Ran(plugins[0], true)] + Executed(plugins[1..], fails)
  }

  method ExecutePluginsAsDAG(plugins: seq<Plugin>, fails: Plugin -> bool) returns (log: seq<Ran>, failed: Option<Name>)
    ensures log == Executed(plugins, fails)
    ensures failed.None? <==> |log| == |plugins| && forall r :: r in log ==> r.ok
  {
    log := [];
    for i := 0 to |plugins|
      invariant |log| == i && forall r :: r in log ==> r.ok
      invariant log + Executed(plugins[i..], fails) == Executed(plugins, fails)
    {
      assert plugins[i..][0] == plugins[i] && plugins[i..][1..] == plugins[i + 1..];
      if fails(plugins[i]) {
        log := log + [Ran(plugins[i], false)];
        assert !log[i].ok;
        return log, Some(plugins[i].name);
      }
      log := log + [Ran(plugins[i], true)];
    }
    failed := None;
  }

  /** What runs is a prefix of the list, and everything but the last run succeeded. */
  lemma {:induction false} ExecutedPrefix(plugins: seq<Plugin>, fails: Plugin -> bool)
    ensures |Executed(plugins, fails)| <= |plugins|
    ensures forall i :: 0 <= i < |Executed(plugins, fails)| ==> Executed(plugins, fails)[i].plugin == plugins[i]
    ensures forall i :: 0 <= i < |Executed(plugins, fails)| - 1 ==> Executed(plugins, fails)[i].ok
    decreases |plugins|
  {
    if plugins != [] && !fails(plugins[0]) {
      ExecutedPrefix(plugins[1..], fails);
    }
  }

  predicate UniqueNames(plugins: seq<Plugin>) {
    forall i, j :: 0 <= i < j < |plugins| ==> plugins[i].name != plugins[j].name
  }

  lemma {:induction false} ByNameFinds(plugins: seq<Plugin>, q: Plugin)
    requires UniqueNames(plugins) && q in plugins
    ensures q.name in ByName(plugins) && ByName(plugins)[q.name] == q
    decreases |plugins|
  {
    var n := |plugins| - 1;
    if plugins[n] != q {
      var i :| 0 <= i < |plugins| && plugins[i] == q;
      assert plugins[..n][i] == q;
      ByNameFinds(plugins[..n], q);
    }
  }

  lemma {:induction false} ByNameWithin(plugins: seq<Plugin>, n: Name)
    requires n in ByName(plugins)
    ensures ByName(plugins)[n] in plugins
    decreases |plugins|
  {
    var k := |plugins| - 1;
    if plugins[k].name != n {
      ByNameWithin(plugins[..k], n);
    }
  }

  /** Where a name stands in the sorted list decides where its plugin stands in the reordered one. */
  lemma {:induction false} ReorderedBefore(plugins: seq<Plugin>, sorted: seq<Name>, k: nat)
    requires k < |Reordered(plugins, sorted)|
    ensures exists j :: 0 <= j < |sorted| && sorted[j] in ByName(plugins)
                     && Reordered(plugins, sorted)[k] == ByName(plugins)[sorted[j]]
                     && Reordered(plugins, sorted)[..k] == Reordered(plugins, sorted[..j])
    decreases |sorted|
  {
    var n := |sorted| - 1;
    var front := Reordered(plugins, sorted[..n]);
    if k < |front| {
      ReorderedBefore(plugins, sorted[..n], k);
      var j :| 0 <= j < n && sorted[..n][j] in ByName(plugins) && front[k] == ByName(plugins)[sorted[..n][j]]
            && front[..k] == Reordered(plugins, sorted[..n][..j]);
      assert sorted[..n][..j] == sorted[..j];
      assert Reordered(plugins, sorted)[..k] == front[..k];
    } else {
      assert Reordered(plugins, sorted)[..k] == front;
    }
  }

  lemma {:induction false} ReorderedHas(plugins: seq<Plugin>, sorted: seq<Name>, n: Name)
    requires n in sorted && n in ByName(plugins)
    ensures ByName(plugins)[n] in Reordered(plugins, sorted)
    decreases |sorted|
  {
    var k := |sorted| - 1;
    if sorted[k] != n {
      ReorderedHas(plugins, sorted[..k], n);
    }
  }

  /** The data plugins handed to the executor: taken from all plugins, producing and consuming. */
  predicate DataPlugins(all: seq<Plugin>, data: seq<Plugin>) {
    UniqueNames(data) && forall d :: d in data ==> d in all && d.produces.Some? && d.consumes.Some?
  }

  /** What is reordered is taken from the list, under names that are sorted, each once. */
  lemma {:induction false} ReorderedOnce(plugins: seq<Plugin>, sorted: seq<Name>)
    requires Distinct(sorted)
    ensures forall q :: q in Reordered(plugins, sorted) ==> q in plugins && q.name in sorted
    ensures UniqueNames(Reordered(plugins, sorted))
    decreases |sorted|
  {
    hide ByName, UniqueNames;
    if sorted == [] {
      assert UniqueNames([]) by { NoNames(); }
    } else {
      var k := |sorted| - 1;
      var front := sorted[..k];
      ReorderedOnce(plugins, front);
      assert sorted[k] !in front;
      if sorted[k] in ByName(plugins) {
        ByNameWithin(plugins, sorted[k]);
        var q := ByName(plugins)[sorted[k]];
        assert q.name == sorted[k];
        OneMoreName(Reordered(plugins, front), q);
      } else {
        assert Reordered(plugins, sorted) == Reordered(plugins, front);
      }
    }
  }

  lemma NoNames()
    ensures UniqueNames([])
  {
  }

  lemma OneMoreName(plugins: seq<Plugin>, q: Plugin)
    requires UniqueNames(plugins) && forall p :: p in plugins ==> p.name != q.name
    ensures UniqueNames(plugins + [q])
  {
  }

  /** Reordering keeps every data plugin and adds none, each once. */
  lemma ReorderingKeepsAll(all: seq<Plugin>, data: seq<Plugin>, order: seq<Name>)
    requires UniqueNames(all) && DataPlugins(all, data) && ValidOrder(ByName(all), order)
    ensures forall q :: q in Reordered(data, order) <==> q in data
    ensures UniqueNames(Reordered(data, order))
  {
    ReorderedOnce(data, order);
    forall q | q in data
      ensures q in Reordered(data, order)
    {
      ByNameFinds(all, q);
      ByNameFinds(data, q);
      assert q.name in order;
      ReorderedHas(data, order, q.name);
    }
  }

  /** A data plugin runs only after every other data plugin that produces one of its keys has succeeded. */
  lemma RunsAfterItsProducers(all: seq<Plugin>, data: seq<Plugin>, order: seq<Name>, fails: Plugin -> bool,
                              i: nat, q: Plugin)
    requires UniqueNames(all) && DataPlugins(all, data) && ValidOrder(ByName(all), order)
    requires i < |Executed(Reordered(data, order), fails)| && q in data
    requires var c := Executed(Reordered(data, order), fails)[i].plugin; q.name != c.name && exists k :: Feeds(q, c, k)
    ensures exists j :: 0 <= j < i && Executed(Reordered(data, order), fails)[j] == Ran(q, true)
  {
    var ran := Reordered(data, order);
    var log := Executed(ran, fails);
    ExecutedPrefix(ran, fails);
    var c := ran[i];
    assert log[i].plugin == c;
    ReorderedBefore(data, order, i);
    var j :| 0 <= j < |order| && order[j] in ByName(data) && c == ByName(data)[order[j]]
             && ran[..i] == Reordered(data, order[..j]);
    ByNameWithin(data, order[j]);
    assert c.name == order[j];
    ByNameFinds(all, c);
    ByNameFinds(all, q);
    ByNameFinds(data, q);
    FeedsIff(q, c);
    assert DependsOn(ByName(all), order[j], q.name);
    assert q.name in order[..j];
    ReorderedHas(data, order[..j], q.name);
    assert q in ran[..i];
    var k :| 0 <= k < |ran[..i]| && ran[..i][k] == q;
    assert log[k].plugin == q && log[k].ok;
  }
}
