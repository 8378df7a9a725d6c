// The model-rewrite store as an object (pkg/epp/datastore/modelrewritestore.go).
module RewriteStore {
  import opened Wrappers
  import opened Sequences
  import opened RewriteIndex
  import opened RewriteOrder

  // ---- Sorting by age ----

  predicate IsMin(s: seq<Entry>, i: int) {
    0 <= i < |s| && forall j :: 0 <= j < |s| ==> s[i].created <= s[j].created
  }

  predicate AllBefore(s: seq<Entry>, t: seq<Entry>) {
    forall i, j :: 0 <= i < |s| && 0 <= j < |t| ==> s[i].created <= t[j].created
  }

  lemma MinMoved(r: seq<Entry>, rest: seq<Entry>, i: int)
    requires Sorted(r) && AllBefore(r, rest) && IsMin(rest, i)
    ensures Sorted(r + [rest[i]]) && AllBefore(r + [rest[i]], Drop(rest, i))
  {
    var t := Drop(rest, i);
    assert forall j :: 0 <= j < |t| ==> t[j] == if j < i then rest[j] else rest[j + 1];
  }

  /** The first of the oldest entries. */
  predicate IsFirstMin(s: seq<Entry>, i: int) { IsMin(s, i) && forall j :: 0 <= j < i ==> s[i].created < s[j].created }

  lemma {:induction false} FirstMinExists(s: seq<Entry>)
    requires s != []
    ensures exists i :: IsFirstMin(s, i)
    decreases |s|
  {
    var n := |s| - 1;
    if n == 0 {
      assert IsFirstMin(s, 0);
    } else {
      var front := s[..n];
      FirstMinExists(front);
      var i :| IsFirstMin(front, i);
      assert forall j :: 0 <= j < n ==> front[j] == s[j];
      assert front[i] == s[i];
      assert IsFirstMin(s, if s[i].created <= s[n].created then i else n);
    }
  }

  /** Taking the first of the oldest keeps the order of entries of the same age. */
  lemma FirstMinKeepsOrder(r: seq<Entry>, rest: seq<Entry>, i: int, c: int)
    requires IsFirstMin(rest, i)
    ensures OfAge(r + [rest[i]], c) + OfAge(Drop(rest, i), c) == OfAge(r, c) + OfAge(rest, c)
  {
    hide OfAge;
    var front, x, back := rest[..i], rest[i], rest[i + 1..];
    assert rest == front + ([x] + back);
    OfAgeConcat(r, [x], c);
    OfAgeConcat(front, back, c);
    OfAgeConcat(front, [x] + back, c);
    OfAgeConcat([x], back, c);
    OfAgeOne(x, c);
    if x.created == c {
      assert forall j :: 0 <= j < |front| ==> front[j] == rest[j];
      OfAgeNone(front, c);
    }
    Rearranged(OfAge(r, c), OfAge([x], c), OfAge(front, c), OfAge(back, c));
  }

  lemma OfAgeOne(e: Entry, c: int)
    ensures OfAge([e], c) == if e.created == c then [e] else []
  {
    assert [e][..0] == [];
  }

  lemma Rearranged(r: seq<Entry>, x: seq<Entry>, front: seq<Entry>, back: seq<Entry>)
    requires x == [] || front == []
    ensures (r + x) + (front + back) == r + (front + (x + back))
  {
  }

  /** Sorts by creation time; entries of the same age keep their order if the sort is stable, and may stand in any order
      if it is not. */
  method SortByCreation(s: seq<Entry>, stable: bool) returns (r: seq<Entry>)
    ensures Resorted(r, s, stable)
  {
    r := [];
    var rest := s;
    NothingTaken(s);
    hide Occ, OfAge, Sorted, AllBefore;
    while rest != []
      invariant Sorted(r) && AllBefore(r, rest)
      invariant forall e :: Occ(r, e) + Occ(rest, e) == Occ(s, e)
      invariant stable ==> forall c :: OfAge(r, c) + OfAge(rest, c) == OfAge(s, c)
      decreases |rest|
    {
      FirstMinExists(rest);
      var i :| 0 <= i < |rest| && if stable then IsFirstMin(rest, i) else IsMin(rest, i);
      MinMoved(r, rest, i);
      forall e
        ensures Occ(r + [rest[i]], e) + Occ(Drop(rest, i), e) == Occ(s, e)
      {
        OccConcat(r, [rest[i]], e);
        DropOcc(rest, i, e);
      }
      if stable {
        forall c
          ensures OfAge(r + [rest[i]], c) + OfAge(Drop(rest, i), c) == OfAge(s, c)
        {
          FirstMinKeepsOrder(r, rest, i, c);
        }
      }
      r, rest := r + [rest[i]], Drop(rest, i);
    }
    NothingLeft(r, s, stable);
  }

  lemma NothingTaken(s: seq<Entry>)
    ensures Sorted([]) && AllBefore([], s)
    ensures forall e :: Occ([], e) + Occ(s, e) == Occ(s, e)
    ensures forall c :: OfAge([], c) + OfAge(s, c) == OfAge(s, c)
  {
  }

  lemma NothingLeft(r: seq<Entry>, s: seq<Entry>, stable: bool)
    requires Sorted(r) && forall e :: Occ(r, e) + Occ([], e) == Occ(s, e)
    requires stable ==> forall c :: OfAge(r, c) + OfAge([], c) == OfAge(s, c)
    ensures Resorted(r, s, stable)
  {
    forall e
      ensures Occ(r, e) == Occ(s, e)
    {
      assert Occ(r, e) + Occ([], e) == Occ(s, e);
    }
    if stable {
      forall c
        ensures OfAge(r, c) == OfAge(s, c)
      {
        assert OfAge(r, c) + OfAge([], c) == OfAge(s, c);
      }
    }
  }

  ghost predicate Resorted(s: seq<Entry>, was: seq<Entry>, stable: bool) {
    Sorted(s) && SameEntries(s, was) && (stable ==> SameOrder(s, was))
  }

  lemma SortedAgain(s: seq<Entry>, was: seq<Entry>, stable: bool)
    requires Resorted(s, was, stable)
    ensures s == [] <==> was == []
  {
    SameEmptiness(s, was);
  }

  method Filter(s: seq<Entry>, n: Name) returns (r: seq<Entry>)
    ensures Filtered(r, s, n)
  {
    r := [];
    for i := 0 to |s|
      invariant r == Without(s[..i], n)
    {
      assert s[..i + 1][..i] == s[..i];
      if s[i].parent != n {
        r := r + [s[i]];
      }
    }
    assert s[..|s|] == s;
  }

  method ExactModels(rule: Rule) returns (models: set<Model>)
    ensures forall m :: m in models <==> Applies(rule, Exact(m))
  {
    models := {};
    for i := 0 to |rule.matches|
      invariant forall m :: m in models <==> Some(m) in rule.matches[..i]
    {
      if rule.matches[i].Some? {
        models := models + {rule.matches[i].value};
      }
    }
    assert rule.matches[..|rule.matches|] == rule.matches;
  }

  // ---- The store ----

  lemma Lists(exact: map<Model, seq<Entry>>)
    ensures NoEmptyList(exact) <==> forall m :: m in exact ==> Under(exact, m) != []
    ensures forall m :: m !in exact ==> Under(exact, m) == []
  {
  }

  lemma NothingResorted(stable: bool)
    ensures Resorted([], [], stable)
  {
  }

  lemma NothingFiltered(n: Name)
    ensures Filtered([], [], n)
  {
  }

  datatype Op = Set(resource: Resource) | Delete(name: Name)

  function Stored(ops: seq<Op>): Resources {
    if ops == [] then map[]
    else
      match ops[|ops| - 1]
      case Set(res) => Stored(ops[..|ops| - 1])[res.name := res]
      case Delete(n) => Stored(ops[..|ops| - 1]) - {n}
  }

  predicate OnResource(op: Op, n: Name) {
    match op
    case Set(res) => res.name == n
    case Delete(name) => name == n
  }

  predicate LastOn(ops: seq<Op>, i: nat, n: Name) {
    i < |ops| && OnResource(ops[i], n) && forall j :: i < j < |ops| ==> !OnResource(ops[j], n)
  }

  predicate NeverOn(ops: seq<Op>, n: Name) { forall i :: 0 <= i < |ops| ==> !OnResource(ops[i], n) }

  /** What is left of a resource is what the last operation on its name says. */
  lemma {:induction false} LastOpDecides(ops: seq<Op>, i: nat, n: Name)
    requires LastOn(ops, i, n) || (i == |ops| && NeverOn(ops, n))
    ensures if i < |ops| && ops[i].Set? then n in Stored(ops) && Stored(ops)[n] == ops[i].resource
            else n !in Stored(ops)
    decreases |ops|
  {
    if ops != [] {
      var k := |ops| - 1;
      if i != k {
        assert i < k ==> LastOn(ops[..k], i, n);
        LastOpDecides(ops[..k], if i < k then i else k, n);
      }
    }
  }

  class ModelRewriteStore {
    var genericRules: seq<Entry>
    var rulesByExactModelMatch: map<Model, seq<Entry>>
    var allReWrites: Resources
    const stable: bool

    ghost function View(): Index
      reads this
    {
      Index(genericRules, rulesByExactModelMatch)
    }

    ghost predicate Valid()
      reads this
    {
      Named(allReWrites) && IndexOf(View(), allReWrites) && (stable ==> InListOrder(View(), allReWrites))
    }

    /** `stable`: whether the sort keeps the order of entries of the same age. */
    constructor (stable: bool)
      ensures this.stable == stable && Valid() && allReWrites == Stored([])
    {
      this.stable := stable;
      genericRules, rulesByExactModelMatch, allReWrites := [], map[], map[];
    }

    /** Replaces one model's list, and drops the model when the list is empty. */
    method Put(modelName: Model, newRules: seq<Entry>)
      modifies `rulesByExactModelMatch
      ensures modelName in rulesByExactModelMatch <==> newRules != []
      ensures Under(rulesByExactModelMatch, modelName) == newRules
      ensures forall m :: m != modelName ==> (m in rulesByExactModelMatch <==> m in old(rulesByExactModelMatch))
      ensures forall m :: m != modelName ==> Under(rulesByExactModelMatch, m) == Under(old(rulesByExactModelMatch), m)
    {
      if |newRules| == 0 {
        rulesByExactModelMatch := rulesByExactModelMatch - {modelName};
      } else {
        rulesByExactModelMatch := rulesByExactModelMatch[modelName := newRules];
      }
    }

    method FilterExact(n: Name)
      requires NoEmptyList(rulesByExactModelMatch)
      modifies `rulesByExactModelMatch
      ensures forall m :: Filtered(Under(rulesByExactModelMatch, m), Under(old(rulesByExactModelMatch), m), n)
      ensures NoEmptyList(rulesByExactModelMatch)
    {
      hide Filtered, Under, NoEmptyList;
      ghost var was := rulesByExactModelMatch;
      var todo := rulesByExactModelMatch.Keys;
      Lists(was);
      NothingFiltered(n);
      while todo != {}
        invariant forall m :: m in rulesByExactModelMatch ==> Under(rulesByExactModelMatch, m) != []
        invariant forall m :: m in todo ==> Under(rulesByExactModelMatch, m) == Under(was, m)
        invariant forall m :: m !in todo ==> Filtered(Under(rulesByExactModelMatch, m), Under(was, m), n)
        decreases |todo|
      {
        var modelName :| modelName in todo;
        var newRules := Filter(Under(rulesByExactModelMatch, modelName), n);
        Put(modelName, newRules);
        todo := todo - {modelName};
      }
      Lists(rulesByExactModelMatch);
    }

    method DeleteInternal(n: Name)
      requires Valid()
      modifies this
      ensures Valid() && allReWrites == old(allReWrites) - {n}
    {
      if n !in allReWrites {
        return;
      }
      ghost var before := View();
      allReWrites := allReWrites - {n};
      genericRules := Filter(genericRules, n);
      FilterExact(n);
      assert forall k :: Filtered(View().Bucket(k), before.Bucket(k), n);
      DeletedIndex(before, View(), old(allReWrites), n);
      if stable {
        DeletedInOrder(before, View(), old(allReWrites), n);
      }
    }

    /** One rule goes under every model it names. */
    method AppendExact(entry: Entry, models: set<Model>)
      requires NoEmptyList(rulesByExactModelMatch)
      modifies `rulesByExactModelMatch
      ensures NoEmptyList(rulesByExactModelMatch)
      ensures forall m :: Under(rulesByExactModelMatch, m)
                       == Under(old(rulesByExactModelMatch), m) + if m in models then [entry] else []
    {
      ghost var was := rulesByExactModelMatch;
      var todo := models;
      while todo != {}
        invariant todo <= models && NoEmptyList(rulesByExactModelMatch)
        invariant forall m :: Under(rulesByExactModelMatch, m) == Under(was, m)
                                     + if m in models - todo then [entry] else []
        decreases |todo|
      {
        var model :| model in todo;
        rulesByExactModelMatch := rulesByExactModelMatch[model := Under(rulesByExactModelMatch, model) + [entry]];
        todo := todo - {model};
      }
    }

    method AppendRule(res: Resource, i: nat)
      requires NoEmptyBucket(View()) && i < |res.rules|
      modifies `genericRules, `rulesByExactModelMatch
      ensures NoEmptyBucket(View())
      ensures forall k :: View().Bucket(k)
                       == old(View()).Bucket(k) + if Applies(res.rules[i], k) then [EntryOf(res, i)] else []
    {
      if |res.rules[i].matches| == 0 {
        genericRules := genericRules + [EntryOf(res, i)];
      } else {
        var models := ExactModels(res.rules[i]);
        AppendExact(EntryOf(res, i), models);
      }
    }

    method AppendRules(res: Resource)
      requires NoEmptyBucket(View())
      modifies `genericRules, `rulesByExactModelMatch
      ensures NoEmptyBucket(View())
      ensures forall k :: View().Bucket(k) == old(View()).Bucket(k) + Added(res, |res.rules|, k)
    {
      hide NoEmptyBucket, Applies, Index.Bucket;
      for i := 0 to |res.rules|
        invariant NoEmptyBucket(View())
        invariant forall k :: View().Bucket(k) == old(View()).Bucket(k) + Added(res, i, k)
      {
        ghost var before := View();
        AppendRule(res, i);
        forall k
          ensures View().Bucket(k) == old(View()).Bucket(k) + Added(res, i + 1, k)
        {
          assert before.Bucket(k) == old(View()).Bucket(k) + Added(res, i, k);
        }
      }
    }

    method SortExact()
      requires NoEmptyList(rulesByExactModelMatch)
      modifies `rulesByExactModelMatch
      ensures NoEmptyList(rulesByExactModelMatch)
      ensures forall m :: Resorted(Under(rulesByExactModelMatch, m), Under(old(rulesByExactModelMatch), m), stable)
    {
      hide Resorted, Under, NoEmptyList;
      ghost var was := rulesByExactModelMatch;
      NothingResorted(stable);
      Lists(was);
      var todo := rulesByExactModelMatch.Keys;
      while todo != {}
        invariant forall m :: m in rulesByExactModelMatch ==> Under(rulesByExactModelMatch, m) != []
        invariant forall m :: m in todo ==> Under(rulesByExactModelMatch, m) == Under(was, m) != []
        invariant forall m :: m !in todo ==> Resorted(Under(rulesByExactModelMatch, m), Under(was, m), stable)
        decreases |todo|
      {
        var model :| model in todo;
        var sorted := SortByCreation(Under(rulesByExactModelMatch, model), stable);
        SortedAgain(sorted, Under(rulesByExactModelMatch, model), stable);
        Put(model, sorted);
        todo := todo - {model};
      }
      Lists(rulesByExactModelMatch);
    }

    method SortAll()
      requires NoEmptyBucket(View())
      modifies `genericRules, `rulesByExactModelMatch
      ensures NoEmptyBucket(View()) && forall k :: Resorted(View().Bucket(k), old(View()).Bucket(k), stable)
    {
      hide Resorted, NoEmptyList;
      genericRules := SortByCreation(genericRules, stable);
      SortExact();
    }

    method Set(res: Resource)
      requires Valid()
      modifies this
      ensures Valid() && allReWrites == old(allReWrites)[res.name := res]
    {
      if res.name in allReWrites {
        DeleteInternal(res.name);
      }
      ghost var before, all := View(), allReWrites;
      allReWrites := allReWrites[res.name := res];
      AppendRules(res);
      ghost var appended := View();
      SortAll();
      forall k, e
        ensures Occ(View().Bucket(k), e) == Occ(before.Bucket(k), e) + Occ(Added(res, |res.rules|, k), e)
      {
        assert Resorted(View().Bucket(k), appended.Bucket(k), stable);
        assert appended.Bucket(k) == before.Bucket(k) + Added(res, |res.rules|, k);
        OccConcat(before.Bucket(k), Added(res, |res.rules|, k), e);
      }
      SetIndex(before, View(), all, res);
      if stable {
        assert forall k :: Resorted(View().Bucket(k), appended.Bucket(k), stable);
        SetInOrder(before, appended, View(), all, res);
      }
    }

    method GetRule(modelName: Model) returns (answer: Option<Entry>)
      requires Valid()
      ensures answer == Answer(View(), modelName)
      ensures RightAnswer(allReWrites, modelName, answer)
      ensures stable && DistinctTimes(allReWrites) ==> ApiAnswer(allReWrites, modelName, answer)
    {
      AnswerIsRight(View(), allReWrites, modelName);
      if stable && DistinctTimes(allReWrites) {
        AnswerIsTheApis(View(), allReWrites, modelName);
      }
      if modelName in rulesByExactModelMatch && |rulesByExactModelMatch[modelName]| > 0 {
        return Some(rulesByExactModelMatch[modelName][0]);
      }
      if |genericRules| > 0 {
        return Some(genericRules[0]);
      }
      return None;
    }

    /** After any sequence of sets and deletes on a new store the index is that of the resources they leave, and with a
        stable sort the rules of each stand in list order. */
    method Run(ops: seq<Op>)
      requires Valid() && allReWrites == Stored([])
      modifies this
      ensures Valid() && allReWrites == Stored(ops) && IndexOf(View(), Stored(ops))
      ensures stable ==> InListOrder(View(), Stored(ops))
    {
      for i := 0 to |ops|
        invariant Valid() && allReWrites == Stored(ops[..i])
      {
        assert ops[..i + 1][..i] == ops[..i];
        match ops[i] {
          case Set(res) => Set(res);
          case Delete(n) => DeleteInternal(n);
        }
      }
      assert ops[..|ops|] == ops;
    }
  }
}
