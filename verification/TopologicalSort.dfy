// Kahn's algorithm over a graph given by neighbour lists (topologicalSort in pkg/epp/datalayer/data_graph.go).
module TopologicalSort {
  import opened Wrappers
  import opened Sequences

  /** A plugin's typed name. */
  type Name(==, !new)

  type Graph = map<Name, seq<Name>>

  predicate Edge(g: Graph, u: Name, v: Name) {
    u in g && v in g[u]
  }

  /** Every name that is a key or a neighbour. */
  function Nodes(g: Graph): set<Name> {
    g.Keys + set u, v | u in g.Keys && v in g[u] :: v
  }

  ghost predicate Path(g: Graph, p: seq<Name>) {
    forall i :: 0 <= i < |p| - 1 ==> Edge(g, p[i], p[i + 1])
  }

  ghost predicate Cycle(g: Graph, p: seq<Name>) {
    |p| >= 2 && p[0] == p[|p| - 1] && Path(g, p)
  }

  ghost predicate HasCycle(g: Graph) {
    exists p :: Cycle(g, p)
  }

  predicate Distinct(s: seq<Name>) {
    forall i, j :: 0 <= i < j < |s| ==> s[i] != s[j]
  }

  function Elements(s: seq<Name>): set<Name> {
    set x | x in s
  }

  /** Every edge leads to an earlier place: what a node depends on comes before it. */
  ghost predicate DependenciesFirst(g: Graph, order: seq<Name>) {
    forall i, v :: 0 <= i < |order| && Edge(g, order[i], v) ==> v in order[..i]
  }

  /** Every edge leads to a later place, as in the order in which Kahn's algorithm removes nodes. */
  ghost predicate SourcesFirst(g: Graph, order: seq<Name>) {
    forall j, u :: 0 <= j < |order| && Edge(g, u, order[j]) ==> u in order[..j]
  }

  // ---- Counting incoming edges, with multiplicity ----

  /** The edges into `v` from the sources in `from`. */
  ghost function Into(g: Graph, from: set<Name>, v: Name): nat
    requires from <= g.Keys
  {
    if from == {} then 0 else var u :| u in from; Occ(g[u], v) + Into(g, from - {u}, v)
  }

  lemma {:induction false} IntoRemove(g: Graph, from: set<Name>, u: Name, v: Name)
    requires from <= g.Keys && u in from
    ensures Into(g, from, v) == Occ(g[u], v) + Into(g, from - {u}, v)
    decreases |from|
  {
    var w :| w in from && Into(g, from, v) == Occ(g[w], v) + Into(g, from - {w}, v);
    if w != u {
      IntoRemove(g, from - {w}, u, v);
      IntoRemove(g, from - {u}, w, v);
      assert from - {w} - {u} == from - {u} - {w};
    }
  }

  lemma {:induction false} IntoZeroIff(g: Graph, from: set<Name>, v: Name)
    requires from <= g.Keys
    ensures Into(g, from, v) == 0 <==> forall u :: u in from ==> !Edge(g, u, v)
    decreases |from|
  {
    if from != {} {
      var u :| u in from;
      IntoRemove(g, from, u, v);
      IntoZeroIff(g, from - {u}, v);
      OccMember(g[u], v);
      assert forall x :: x in from <==> x == u || x in from - {u};
    }
  }

  // ---- Cycles ----

  lemma {:induction false} DistinctCard(s: seq<Name>)
    requires Distinct(s)
    ensures |Elements(s)| == |s|
    decreases |s|
  {
    if s != [] {
      var n := |s| - 1;
      DistinctCard(s[..n]);
      assert Elements(s) == Elements(s[..n]) + {s[n]};
    }
  }

  lemma DistinctInside(s: seq<Name>, inside: set<Name>)
    requires Distinct(s) && Elements(s) <= inside
    ensures |s| <= |inside|
    ensures |s| == |inside| <==> Elements(s) == inside
  {
    DistinctCard(s);
    SubsetCard(Elements(s), inside);
  }

  lemma SubsetCard(a: set<Name>, b: set<Name>)
    requires a <= b
    ensures |a| <= |b| && (|a| == |b| <==> a == b)
  {
    assert b == a + (b - a);
    assert |b| == |a| + |b - a|;
  }

  lemma PathPrepend(g: Graph, u: Name, walk: seq<Name>)
    requires walk != [] && Path(g, walk) && Edge(g, u, walk[0])
    ensures Path(g, [u] + walk)
  {
    var longer := [u] + walk;
    forall i | 0 <= i < |longer| - 1
      ensures Edge(g, longer[i], longer[i + 1])
    {
      if i > 0 {
        assert longer[i] == walk[i - 1] && longer[i + 1] == walk[i];
      }
    }
  }

  lemma RepeatIsCycle(g: Graph, walk: seq<Name>, k: nat)
    requires Path(g, walk) && 0 < k < |walk| && walk[k] == walk[0]
    ensures HasCycle(g)
  {
    var loop := walk[..k + 1];
    assert forall i :: 0 <= i < |loop| ==> loop[i] == walk[i];
    assert Path(g, loop);
    assert Cycle(g, loop);
  }

  ghost predicate HasSource(g: Graph, stuck: set<Name>, v: Name) {
    exists u :: u in stuck && Edge(g, u, v)
  }

  /** Every node of the set has an edge into it from inside the set. */
  ghost predicate EachHasSource(g: Graph, stuck: set<Name>) {
    forall v {:trigger HasSource(g, stuck, v)} :: v in stuck ==> HasSource(g, stuck, v)
  }

  lemma PickSource(g: Graph, stuck: set<Name>, v: Name) returns (u: Name)
    requires EachHasSource(g, stuck) && v in stuck
    ensures u in stuck && Edge(g, u, v)
  {
    assert HasSource(g, stuck, v);
    u :| u in stuck && Edge(g, u, v);
  }

  /** A nonempty set in which every node has a predecessor of its own holds a cycle: walk backwards until
      a node repeats. */
  lemma {:induction false} StuckHasCycle(g: Graph, stuck: set<Name>, walk: seq<Name>)
    requires walk != [] && Path(g, walk) && Distinct(walk) && Elements(walk) <= stuck
    requires EachHasSource(g, stuck)
    ensures HasCycle(g)
    decreases |stuck| - |walk|
  {
    hide EachHasSource, HasCycle;
    assert walk[0] in Elements(walk);
    var u := PickSource(g, stuck, walk[0]);
    var longer := [u] + walk;
    PathPrepend(g, u, walk);
    hide Path, Edge;
    if u in walk {
      var k :| 0 <= k < |walk| && walk[k] == u;
      RepeatIsCycle(g, longer, k + 1);
    } else {
      assert Elements(longer) == Elements(walk) + {u};
      DistinctInside(longer, stuck);
      StuckHasCycle(g, stuck, longer);
    }
  }

  lemma {:induction false} PathAdvances(g: Graph, order: seq<Name>, p: seq<Name>, at: nat)
    requires SourcesFirst(g, order) && Distinct(order) && Path(g, p) && |p| >= 2
    requires at < |order| && order[at] == p[|p| - 1]
    ensures p[0] in order[..at]
    decreases |p|
  {
    var n := |p| - 1;
    assert Edge(g, p[n - 1], p[n]);
    assert p[n - 1] in order[..at];
    var k :| 0 <= k < at && order[k] == p[n - 1];
    if n >= 2 {
      assert Path(g, p[..n]) by {
        assert forall i :: 0 <= i < n - 1 ==> Edge(g, p[i], p[i + 1]);
      }
      PathAdvances(g, order, p[..n], k);
      assert order[..k] <= order[..at];
    }
  }

  lemma OrderedHasNoCycle(g: Graph, order: seq<Name>)
    requires SourcesFirst(g, order) && Distinct(order) && Elements(order) == Nodes(g)
    ensures !HasCycle(g)
  {
    forall p | Cycle(g, p)
      ensures false
    {
      var n := |p| - 1;
      assert Edge(g, p[n - 1], p[n]);
      assert p[n] in Elements(order);
      var at :| 0 <= at < |order| && order[at] == p[n];
      PathAdvances(g, order, p, at);
    }
  }

  // ---- The algorithm ----

  /** The names whose neighbour lists have been counted, plus the neighbours on them. */
  function Seen(g: Graph, done: set<Name>): set<Name>
    requires done <= g.Keys
  {
    done + set u, v | u in done && v in g[u] :: v
  }

  /** `inDegree` counts, for every name seen, the edges from `done` plus the occurrences in `extra`. */
  ghost predicate Counts(g: Graph, done: set<Name>, extra: seq<Name>, inDegree: map<Name, nat>)
    requires done <= g.Keys
  {
    forall v :: v in inDegree ==> inDegree[v] == Into(g, done, v) + Occ(extra, v)
  }

  lemma CountsNext(g: Graph, done: set<Name>, u: Name, inDegree: map<Name, nat>)
    requires done <= g.Keys && u in g.Keys && u !in done && Counts(g, done, g[u], inDegree)
    ensures Counts(g, done + {u}, [], inDegree)
  {
    forall v | v in inDegree
      ensures inDegree[v] == Into(g, done + {u}, v)
    {
      IntoRemove(g, done + {u}, u, v);
      assert done + {u} - {u} == done;
    }
  }

  lemma UnseenCountsZero(g: Graph, done: set<Name>, v: Name)
    requires done <= g.Keys && v !in Seen(g, done)
    ensures Into(g, done, v) == 0
  {
    IntoZeroIff(g, done, v);
  }

  lemma CountsOneMore(g: Graph, done: set<Name>, extra: seq<Name>, x: Name, inDegree: map<Name, nat>)
    requires done <= g.Keys && Counts(g, done, extra, inDegree)
    requires x !in inDegree ==> Into(g, done, x) == 0 && x !in extra
    ensures Counts(g, done, extra + [x], inDegree[x := (if x in inDegree then inDegree[x] else 0) + 1])
  {
    OccMember(extra, x);
    assert (extra + [x])[..|extra|] == extra;
  }

  /** Step 1: the in-degree of every node. */
  method CountInDegrees(g: Graph) returns (inDegree: map<Name, nat>)
    ensures inDegree.Keys == Nodes(g)
    ensures Counts(g, g.Keys, [], inDegree)
  {
    inDegree := map[];
    var todo := g.Keys;
    while todo != {}
      invariant todo <= g.Keys
      invariant inDegree.Keys == Seen(g, g.Keys - todo)
      invariant Counts(g, g.Keys - todo, [], inDegree)
      decreases |todo|
    {
      var u :| u in todo;
      assert g.Keys - (todo - {u}) == (g.Keys - todo) + {u};
      inDegree := CountNeighbours(g, g.Keys - todo, u, inDegree);
      todo := todo - {u};
    }
    assert g.Keys - {} == g.Keys;
    assert Seen(g, g.Keys) == Nodes(g);
  }

  /** A node first met starts at zero. */
  lemma CountsUnseen(g: Graph, done: set<Name>, u: Name, inDegree: map<Name, nat>)
    requires done <= g.Keys && Counts(g, done, [], inDegree) && u !in Seen(g, done)
    ensures Counts(g, done, [], inDegree[u := 0])
  {
    UnseenCountsZero(g, done, u);
  }

  lemma ElementsTake(s: seq<Name>, i: nat)
    requires i < |s|
    ensures Elements(s[..i + 1]) == Elements(s[..i]) + {s[i]}
  {
    assert s[..i + 1] == s[..i] + [s[i]];
  }

  lemma SeenNext(g: Graph, done: set<Name>, u: Name)
    requires done <= g.Keys && u in g.Keys
    ensures Seen(g, done + {u}) == Seen(g, done) + {u} + Elements(g[u])
  {
  }

  method CountNeighbours(g: Graph, ghost done: set<Name>, u: Name, before: map<Name, nat>)
    returns (inDegree: map<Name, nat>)
    requires done <= g.Keys && u in g.Keys && u !in done
    requires before.Keys == Seen(g, done) && Counts(g, done, [], before)
    ensures inDegree.Keys == Seen(g, done + {u})
    ensures Counts(g, done + {u}, [], inDegree)
  {
    hide Into, Occ, Counts, Seen, Elements;
    inDegree := before;
    var neighbours := g[u];
    if u !in inDegree {
      CountsUnseen(g, done, u, inDegree);
      inDegree := inDegree[u := 0];
    }
    NoElements();
    for i := 0 to |neighbours|
      invariant inDegree.Keys == before.Keys + {u} + Elements(neighbours[..i])
      invariant Counts(g, done, neighbours[..i], inDegree)
    {
      var x := neighbours[i];
      if x !in inDegree {
        UnseenCountsZero(g, done, x);
        ElementsMember(neighbours[..i], x);
      }
      CountsOneMore(g, done, neighbours[..i], x, inDegree);
      assert neighbours[..i + 1] == neighbours[..i] + [x];
      ElementsTake(neighbours, i);
      inDegree := inDegree[x := (if x in inDegree then inDegree[x] else 0) + 1];
    }
    assert neighbours[..|neighbours|] == neighbours;
    SeenNext(g, done, u);
    CountsNext(g, done, u, inDegree);
  }

  lemma NoElements()
    ensures Elements([]) == {}
  {
  }

  lemma ElementsMember(s: seq<Name>, x: Name)
    ensures x in Elements(s) <==> x in s
  {
  }

  /** Step 2: the nodes without incoming edges, in any order. */
  method InitialQueue(inDegree: map<Name, nat>) returns (queue: seq<Name>)
    ensures Distinct(queue)
    ensures forall v :: v in queue <==> v in inDegree && inDegree[v] == 0
  {
    queue := [];
    var todo := inDegree.Keys;
    while todo != {}
      invariant todo <= inDegree.Keys && Distinct(queue)
      invariant forall v :: v in queue <==> v in inDegree.Keys - todo && inDegree[v] == 0
      decreases |todo|
    {
      var node :| node in todo;
      todo := todo - {node};
      if inDegree[node] == 0 {
        queue := queue + [node];
      }
    }
  }

  /** The sources that have not been removed yet. */
  ghost function Remaining(g: Graph, result: seq<Name>): set<Name> {
    g.Keys - Elements(result)
  }

  /** The state of the removal loop: the in-degrees count the edges from the remaining sources, plus the
      `extra` neighbours of the node in hand still to be discounted. */
  ghost predicate KahnInv(g: Graph, inDegree: map<Name, nat>, result: seq<Name>, queue: seq<Name>, extra: seq<Name>) {
    && inDegree.Keys == Nodes(g)
    && Distinct(result + queue)
    && Counts(g, Remaining(g, result), extra, inDegree)
    && (forall v :: v in inDegree ==> (inDegree[v] == 0 <==> v in result + queue))
    && (forall v :: v in result + queue ==> v in inDegree)
    && SourcesFirst(g, result)
  }

  lemma HeadIsNew(result: seq<Name>, queue: seq<Name>)
    requires Distinct(result + queue) && queue != []
    ensures queue[0] !in result && result + [queue[0]] + queue[1..] == result + queue
  {
    var all := result + queue;
    assert all[|result|] == queue[0];
    assert forall i :: 0 <= i < |result| ==> all[i] == result[i];
  }

  lemma CountsAfterRemoval(g: Graph, result: seq<Name>, u: Name, inDegree: map<Name, nat>)
    requires Counts(g, Remaining(g, result), [], inDegree) && u !in result
    ensures Counts(g, Remaining(g, result + [u]), if u in g then g[u] else [], inDegree)
  {
    forall v | v in inDegree
      ensures inDegree[v] == Into(g, Remaining(g, result + [u]), v) + Occ(if u in g then g[u] else [], v)
    {
      if u in g {
        IntoRemove(g, Remaining(g, result), u, v);
        assert Remaining(g, result + [u]) == Remaining(g, result) - {u};
      } else {
        assert Remaining(g, result + [u]) == Remaining(g, result);
      }
    }
  }

  lemma SourcesFirstSnoc(g: Graph, result: seq<Name>, u: Name)
    requires SourcesFirst(g, result) && Into(g, Remaining(g, result), u) == 0
    ensures SourcesFirst(g, result + [u])
  {
    IntoZeroIff(g, Remaining(g, result), u);
    var rest := result + [u];
    forall j, w | 0 <= j < |rest| && Edge(g, w, rest[j])
      ensures w in rest[..j]
    {
      if j < |result| {
        assert rest[..j] == result[..j] && rest[j] == result[j];
      } else {
        assert w !in Remaining(g, result) && w in Elements(result) && rest[..j] == result;
      }
    }
  }

  lemma RemoveFirst(g: Graph, inDegree: map<Name, nat>, result: seq<Name>, queue: seq<Name>)
    requires KahnInv(g, inDegree, result, queue, []) && queue != []
    ensures KahnInv(g, inDegree, result + [queue[0]], queue[1..], if queue[0] in g then g[queue[0]] else [])
  {
    var u := queue[0];
    HeadIsNew(result, queue);
    assert u in result + queue && inDegree[u] == 0;
    CountsAfterRemoval(g, result, u, inDegree);
    SourcesFirstSnoc(g, result, u);
    hide Counts, SourcesFirst, Nodes, Distinct;
  }

  lemma CountsOneLess(g: Graph, from: set<Name>, extra: seq<Name>, inDegree: map<Name, nat>)
    requires from <= g.Keys && extra != [] && extra[0] in inDegree && Counts(g, from, extra, inDegree)
    ensures inDegree[extra[0]] > 0
    ensures Counts(g, from, extra[1..], inDegree[extra[0] := inDegree[extra[0]] - 1])
  {
    forall v
      ensures Occ(extra, v) == Occ(extra[1..], v) + if extra[0] == v then 1 else 0
    {
      CountHead(extra, v);
    }
  }

  lemma {:induction false} CountHead(s: seq<Name>, v: Name)
    requires s != []
    ensures Occ(s, v) == Occ(s[1..], v) + if s[0] == v then 1 else 0
    decreases |s|
  {
    if |s| > 1 {
      var n := |s| - 1;
      CountHead(s[..n], v);
      assert s[1..][..n - 1] == s[..n][1..];
    }
  }

  lemma DistinctSnoc(s: seq<Name>, x: Name)
    requires Distinct(s) && x !in s
    ensures Distinct(s + [x])
  {
  }

  /** Decreasing the in-degree of one neighbour, and queueing it when none is left. */
  lemma DiscountOne(g: Graph, inDegree: map<Name, nat>, result: seq<Name>, queue: seq<Name>, extra: seq<Name>)
    requires KahnInv(g, inDegree, result, queue, extra) && extra != [] && extra[0] in inDegree
    ensures inDegree[extra[0]] > 0
    ensures var less := inDegree[extra[0] := inDegree[extra[0]] - 1];
            KahnInv(g, less, result, if less[extra[0]] == 0 then queue + [extra[0]] else queue, extra[1..])
  {
    var v := extra[0];
    CountsOneLess(g, Remaining(g, result), extra, inDegree);
    var less := inDegree[v := inDegree[v] - 1];
    assert less.Keys == inDegree.Keys;
    if less[v] == 0 {
      DistinctSnoc(result + queue, v);
      assert result + (queue + [v]) == (result + queue) + [v];
    }
    hide Counts, SourcesFirst, Nodes, Distinct;
  }

  lemma NeighbourIsNode(g: Graph, u: Name, v: Name)
    requires Edge(g, u, v)
    ensures u in Nodes(g) && v in Nodes(g)
  {
  }

  /** Step 3, inner loop: discount the neighbours of the node just removed. */
  method Discount(g: Graph, u: Name, inDegree: map<Name, nat>, ghost result: seq<Name>, queue: seq<Name>)
    returns (inDegree': map<Name, nat>, queue': seq<Name>)
    requires KahnInv(g, inDegree, result, queue, if u in g then g[u] else [])
    ensures KahnInv(g, inDegree', result, queue', [])
  {
    inDegree', queue' := inDegree, queue;
    if u in g {
      var neighbours := g[u];
      assert neighbours[0..] == neighbours;
      for i := 0 to |neighbours|
        invariant KahnInv(g, inDegree', result, queue', neighbours[i..])
      {
        var v := neighbours[i];
        NeighbourIsNode(g, u, v);
        DiscountOne(g, inDegree', result, queue', neighbours[i..]);
        assert neighbours[i..][1..] == neighbours[i + 1..];
        hide KahnInv;
        inDegree' := inDegree'[v := inDegree'[v] - 1];
        if inDegree'[v] == 0 {
          queue' := queue' + [v];
        }
      }
      assert neighbours[|neighbours|..] == [];
    }
  }

  lemma LeftoverHasSource(g: Graph, inDegree: map<Name, nat>, result: seq<Name>, v: Name) returns (u: Name)
    requires KahnInv(g, inDegree, result, [], []) && v in Nodes(g) && v !in result
    ensures Edge(g, u, v) && u in Nodes(g) && u !in result
  {
    assert result + [] == result;
    IntoZeroIff(g, Remaining(g, result), v);
    assert inDegree[v] == Into(g, Remaining(g, result), v);
    u :| u in Remaining(g, result) && Edge(g, u, v);
    NeighbourIsNode(g, u, v);
  }

  /** When the queue runs dry with nodes left over, those hold a cycle. */
  lemma LeftoverHasCycle(g: Graph, inDegree: map<Name, nat>, result: seq<Name>)
    requires KahnInv(g, inDegree, result, [], [])
    ensures Elements(result) != Nodes(g) ==> HasCycle(g)
  {
    var stuck := Nodes(g) - Elements(result);
    ResultWithin(g, inDegree, result, [], []);
    hide KahnInv, HasCycle, Nodes;
    forall v | v in stuck
      ensures HasSource(g, stuck, v)
    {
      var u := LeftoverHasSource(g, inDegree, result, v);
    }
    if stuck != {} {
      var v :| v in stuck;
      StuckHasCycle(g, stuck, [v]);
    }
  }

  method Reverse(s: seq<Name>) returns (r: seq<Name>)
    ensures |r| == |s| && forall i :: 0 <= i < |s| ==> r[i] == s[|s| - 1 - i]
  {
    r := s;
    var i, n := 0, |s|;
    while i < n / 2
      invariant 0 <= i <= n / 2 && |r| == n
      invariant forall k :: 0 <= k < i ==> r[k] == s[n - 1 - k]
      invariant forall k :: n - i <= k < n ==> r[k] == s[n - 1 - k]
      invariant forall k :: i <= k < n - i ==> r[k] == s[k]
    {
      var j := n - 1 - i;
      r := r[i := s[j]][j := s[i]];
      i := i + 1;
    }
  }

  lemma ReverseTurnsOrder(g: Graph, order: seq<Name>, r: seq<Name>)
    requires SourcesFirst(g, order) && Distinct(order) && Elements(order) == Nodes(g)
    requires |r| == |order| && forall i :: 0 <= i < |order| ==> r[i] == order[|order| - 1 - i]
    ensures DependenciesFirst(g, r) && Distinct(r) && Elements(r) == Nodes(g)
  {
    var n := |order|;
    assert forall i :: 0 <= i < n ==> order[i] == r[n - 1 - i];
    forall x
      ensures x in r <==> x in order
    {
    }
    forall i, v | 0 <= i < n && Edge(g, r[i], v)
      ensures v in r[..i]
    {
      assert v in Elements(order);
      var j :| 0 <= j < n && order[j] == v;
      assert r[i] in order[..j];
      var k :| 0 <= k < j && order[k] == r[i];
      assert k == n - 1 - i;
      assert r[..i][n - 1 - j] == v;
    }
  }

  lemma ResultWithin(g: Graph, inDegree: map<Name, nat>, result: seq<Name>, queue: seq<Name>, extra: seq<Name>)
    requires KahnInv(g, inDegree, result, queue, extra)
    ensures Distinct(result) && Elements(result) <= Nodes(g) && SourcesFirst(g, result)
    ensures |result| <= |Nodes(g)| && (|result| == |Nodes(g)| <==> Elements(result) == Nodes(g))
  {
    var all := result + queue;
    assert forall i :: 0 <= i < |result| ==> all[i] == result[i];
    assert Elements(result) <= Nodes(g);
    DistinctInside(result, Nodes(g));
  }

  /** Step 3: remove nodes without incoming edges until there are none; what is left over holds a cycle. */
  method RemoveAll(g: Graph, inDegree0: map<Name, nat>, queue0: seq<Name>) returns (result: seq<Name>)
    requires KahnInv(g, inDegree0, [], queue0, [])
    ensures Distinct(result) && Elements(result) <= Nodes(g) && SourcesFirst(g, result)
    ensures |result| == |Nodes(g)| <==> Elements(result) == Nodes(g)
    ensures Elements(result) != Nodes(g) ==> HasCycle(g)
  {
    hide KahnInv, HasCycle, Nodes, SourcesFirst, Distinct, Elements;
    var inDegree, queue := inDegree0, queue0;
    result := [];
    while |queue| > 0
      invariant KahnInv(g, inDegree, result, queue, [])
      decreases |Nodes(g)| - |result|
    {
      var u := queue[0];
      RemoveFirst(g, inDegree, result, queue);
      queue := queue[1..];
      result := result + [u];
      ResultWithin(g, inDegree, result, queue, if u in g then g[u] else []);
      inDegree, queue := Discount(g, u, inDegree, result, queue);
    }
    assert queue == [];
    LeftoverHasCycle(g, inDegree, result);
    ResultWithin(g, inDegree, result, [], []);
  }

  lemma InitiallyKahn(g: Graph, inDegree: map<Name, nat>, queue: seq<Name>)
    requires inDegree.Keys == Nodes(g) && Counts(g, g.Keys, [], inDegree)
    requires Distinct(queue) && forall v :: v in queue <==> v in inDegree && inDegree[v] == 0
    ensures KahnInv(g, inDegree, [], queue, [])
  {
    assert Remaining(g, []) == g.Keys;
    assert [] + queue == queue;
  }

  /** Terminates on every graph, reports a cycle exactly when there is one, and otherwise lists every node
      once with everything it depends on before it. */
  method TopologicalSort(g: Graph) returns (r: Option<seq<Name>>)
    ensures r.None? <==> HasCycle(g)
    ensures r.Some? ==> Distinct(r.value) && Elements(r.value) == Nodes(g) && DependenciesFirst(g, r.value)
  {
    var inDegree := CountInDegrees(g);
    var queue := InitialQueue(inDegree);
    InitiallyKahn(g, inDegree, queue);
    var result := RemoveAll(g, inDegree, queue);
    assert |inDegree| == |inDegree.Keys| == |Nodes(g)|;
    if |result| != |inDegree| {
      return None;
    }
    OrderedHasNoCycle(g, result);
    var order := Reverse(result);
    ReverseTurnsOrder(g, result, order);
    r := Some(order);
  }
}
