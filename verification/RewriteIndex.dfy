// The index of model-rewrite rules (pkg/epp/datastore/modelrewritestore.go) against the precedence rule its API
// states (apix/v1alpha2/inferencemodelrewrite_types.go).
module RewriteIndex {
  import opened Wrappers
  import opened Sequences

  type Name(==, !new)
  type Model(==, !new)

  datatype Target = Target(model: Model, weight: int)

  /** A match without a model is None. */
  datatype Rule = Rule(matches: seq<Option<Model>>, targets: seq<Target>)

  datatype Resource = Resource(name: Name, created: int, rules: seq<Rule>)

  /** A rule with its resource's name and creation time. */
  datatype Entry = Entry(rule: Rule, created: int, parent: Name)

  datatype Key = Generic | Exact(model: Model)

  predicate Applies(rule: Rule, k: Key) {
    match k
    case Generic => rule.matches == []
    case Exact(m) => Some(m) in rule.matches
  }

  // ---- What the stored resources call for ----

  type Resources = map<Name, Resource>

  predicate Named(all: Resources) { forall n :: n in all ==> all[n].name == n }

  /** How often a rebuild from the resources puts the entry under the key. */
  function Expected(all: Resources, k: Key, e: Entry): nat {
    if e.parent in all && all[e.parent].created == e.created && Applies(e.rule, k)
    then Occ(all[e.parent].rules, e.rule) else 0
  }

  predicate Candidate(all: Resources, k: Key, e: Entry) {
    e.parent in all && e.created == all[e.parent].created && e.rule in all[e.parent].rules && Applies(e.rule, k)
  }

  ghost predicate Oldest(all: Resources, k: Key, e: Entry) {
    Candidate(all, k, e) && forall other :: Candidate(all, k, other) ==> e.created <= other.created
  }

  ghost predicate HasCandidate(all: Resources, k: Key) { exists e :: Candidate(all, k, e) }

  /** The precedence rule: an oldest exact match, else an oldest generic rule, else nothing. */
  ghost predicate RightAnswer(all: Resources, m: Model, answer: Option<Entry>) {
    if HasCandidate(all, Exact(m)) then answer.Some? && Oldest(all, Exact(m), answer.value)
    else if HasCandidate(all, Generic) then answer.Some? && Oldest(all, Generic, answer.value)
    else answer.None?
  }

  lemma ExpectedCandidate(all: Resources, k: Key, e: Entry)
    ensures Expected(all, k, e) > 0 <==> Candidate(all, k, e)
  {
    if e.parent in all {
      OccMember(all[e.parent].rules, e.rule);
    }
  }

  // ---- The index ----

  function Under(exact: map<Model, seq<Entry>>, m: Model): seq<Entry> { if m in exact then exact[m] else [] }

  datatype Index = Index(generic: seq<Entry>, exact: map<Model, seq<Entry>>) {
    function Bucket(k: Key): seq<Entry> {
      match k
      case Generic => generic
      case Exact(m) => Under(exact, m)
    }
  }

  predicate Sorted(s: seq<Entry>) {
    forall i, j :: 0 <= i < j < |s| ==> s[i].created <= s[j].created
  }

  ghost predicate Holds(ix: Index, all: Resources, k: Key) {
    forall e :: Occ(ix.Bucket(k), e) == Expected(all, k, e)
  }

  predicate NoEmptyList(exact: map<Model, seq<Entry>>) { forall m :: m in exact ==> exact[m] != [] }

  predicate NoEmptyBucket(ix: Index) { NoEmptyList(ix.exact) }

  /** The same entries, as often. */
  ghost predicate SameEntries(s: seq<Entry>, t: seq<Entry>) { forall e :: Occ(s, e) == Occ(t, e) }

  /** The index of the resources: the entries of a rebuild, each bucket sorted by time and none empty. */
  ghost predicate IndexOf(ix: Index, all: Resources) {
    && (forall k :: Holds(ix, all, k) && Sorted(ix.Bucket(k)))
    && NoEmptyBucket(ix)
  }

  function Ages(s: seq<Entry>): (r: seq<int>)
    ensures |r| == |s|
  {
    seq(|s|, i requires 0 <= i < |s| => s[i].created)
  }

  predicate Rising(a: seq<int>) { forall i, j :: 0 <= i < j < |a| ==> a[i] <= a[j] }

  lemma AgesDrop(s: seq<Entry>, i: nat, c: int)
    requires i < |s|
    ensures Occ(Ages(s), c) == Occ(Ages(Drop(s, i)), c) + if s[i].created == c then 1 else 0
  {
    var front, back := Ages(s[..i]), Ages(s[i + 1..]);
    assert Ages(s) == front + ([s[i].created] + back) && Ages(Drop(s, i)) == front + back;
    OccConcat(front, [s[i].created] + back, c);
    OccConcat([s[i].created], back, c);
    OccConcat(front, back, c);
    OccOne(s[i].created, c);
  }

  lemma {:induction false} SameAges(s: seq<Entry>, t: seq<Entry>, c: int)
    requires SameEntries(s, t)
    ensures Occ(Ages(s), c) == Occ(Ages(t), c)
    decreases |s|
  {
    SameEmptiness(s, t);
    if s != [] {
      OccMember(s, s[0]);
      assert Occ(s, s[0]) == Occ(t, s[0]);
      OccMember(t, s[0]);
      var j :| 0 <= j < |t| && t[j] == s[0];
      var s', t' := Drop(s, 0), Drop(t, j);
      forall e
        ensures Occ(s', e) == Occ(t', e)
      {
        DropOcc(s, 0, e);
        DropOcc(t, j, e);
      }
      SameAges(s', t', c);
      AgesDrop(s, 0, c);
      AgesDrop(t, j, c);
    }
  }

  lemma {:induction false} RisingUnique(a: seq<int>, b: seq<int>)
    requires Rising(a) && Rising(b) && forall c :: Occ(a, c) == Occ(b, c)
    ensures a == b
    decreases |a|
  {
    if a == [] {
      if b != [] {
        OccMember(b, b[0]);
      }
    } else {
      OccMember(a, a[0]);
      OccMember(b, a[0]);
      LastAges(a, b);
      var x, y := a[..|a| - 1], b[..|b| - 1];
      forall c
        ensures Occ(x, c) == Occ(y, c)
      {
        assert Occ(a, c) == Occ(b, c);
      }
      RisingUnique(x, y);
      assert a == x + [a[|a| - 1]] && b == y + [b[|b| - 1]];
    }
  }

  lemma LastAges(a: seq<int>, b: seq<int>)
    requires Rising(a) && Rising(b) && a != [] && b != [] && forall c :: Occ(a, c) == Occ(b, c)
    ensures a[|a| - 1] == b[|b| - 1]
  {
    var x, y := a[|a| - 1], b[|b| - 1];
    OccMember(a, x);
    OccMember(b, x);
    OccMember(a, y);
    OccMember(b, y);
    assert Occ(a, x) == Occ(b, x) && Occ(a, y) == Occ(b, y);
    assert x in b && y in a;
  }

  /** Two indexes of the same resources have the same buckets, with the same entries and the same age at every place. */
  lemma IndexUnique(a: Index, b: Index, all: Resources)
    requires IndexOf(a, all) && IndexOf(b, all)
    ensures a.exact.Keys == b.exact.Keys
    ensures forall k :: SameEntries(a.Bucket(k), b.Bucket(k)) && Ages(a.Bucket(k)) == Ages(b.Bucket(k))
  {
    forall k
      ensures SameEntries(a.Bucket(k), b.Bucket(k)) && Ages(a.Bucket(k)) == Ages(b.Bucket(k))
    {
      SameBucket(a, b, all, k);
    }
    forall m
      ensures m in a.exact <==> m in b.exact
    {
      assert SameEntries(a.Bucket(Exact(m)), b.Bucket(Exact(m)));
      SameEmptiness(a.Bucket(Exact(m)), b.Bucket(Exact(m)));
      assert (m in a.exact <==> a.Bucket(Exact(m)) != []) && (m in b.exact <==> b.Bucket(Exact(m)) != []);
    }
  }

  lemma SameBucket(a: Index, b: Index, all: Resources, k: Key)
    requires IndexOf(a, all) && IndexOf(b, all)
    ensures SameEntries(a.Bucket(k), b.Bucket(k)) && Ages(a.Bucket(k)) == Ages(b.Bucket(k))
  {
    assert Holds(a, all, k) && Holds(b, all, k) && Sorted(a.Bucket(k)) && Sorted(b.Bucket(k));
    forall c
      ensures Occ(Ages(a.Bucket(k)), c) == Occ(Ages(b.Bucket(k)), c)
    {
      SameAges(a.Bucket(k), b.Bucket(k), c);
    }
    RisingUnique(Ages(a.Bucket(k)), Ages(b.Bucket(k)));
  }

  lemma SameEmptiness(s: seq<Entry>, t: seq<Entry>)
    requires SameEntries(s, t)
    ensures s == [] <==> t == []
  {
    if s != [] {
      OccMember(s, s[0]);
      OccMember(t, s[0]);
    }
    if t != [] {
      OccMember(s, t[0]);
      OccMember(t, t[0]);
    }
  }

  function Answer(ix: Index, m: Model): Option<Entry> {
    if ix.Bucket(Exact(m)) != [] then Some(ix.Bucket(Exact(m))[0])
    else if ix.generic != [] then Some(ix.generic[0])
    else None
  }

  lemma BucketMembers(ix: Index, all: Resources, k: Key, e: Entry)
    requires Holds(ix, all, k)
    ensures e in ix.Bucket(k) <==> Candidate(all, k, e)
  {
    OccMember(ix.Bucket(k), e);
    ExpectedCandidate(all, k, e);
  }

  lemma FirstIsOldest(ix: Index, all: Resources, k: Key)
    requires IndexOf(ix, all)
    ensures ix.Bucket(k) != [] <==> HasCandidate(all, k)
    ensures ix.Bucket(k) != [] ==> Oldest(all, k, ix.Bucket(k)[0])
  {
    var b := ix.Bucket(k);
    assert Holds(ix, all, k) && Sorted(b);
    forall e
      ensures e in b <==> Candidate(all, k, e)
    {
      BucketMembers(ix, all, k, e);
    }
    if b != [] {
      assert b[0] in b && Candidate(all, k, b[0]);
    }
  }

  lemma AnswerIsRight(ix: Index, all: Resources, m: Model)
    requires IndexOf(ix, all)
    ensures RightAnswer(all, m, Answer(ix, m))
  {
    FirstIsOldest(ix, all, Exact(m));
    FirstIsOldest(ix, all, Generic);
  }

  /** A resource with one rule answers exactly for the models the rule names, or for all if it names none. */
  lemma OneRuleAnswers(ix: Index, n: Name, created: int, rule: Rule, m: Model)
    requires IndexOf(ix, map[n := Resource(n, created, [rule])])
    ensures Answer(ix, m)
         == if rule.matches == [] || Some(m) in rule.matches then Some(Entry(rule, created, n)) else None
  {
    var all := map[n := Resource(n, created, [rule])];
    AnswerIsRight(ix, all, m);
    forall k, e
      ensures Candidate(all, k, e) <==> e == Entry(rule, created, n) && Applies(rule, k)
    {
    }
    var entry := Entry(rule, created, n);
    assert Candidate(all, Exact(m), entry) <==> Some(m) in rule.matches;
    assert Candidate(all, Generic, entry) <==> rule.matches == [];
  }

  // ---- Ties ----

  function WithBucket(ix: Index, k: Key, b: seq<Entry>): Index {
    match k
    case Generic => ix.(generic := b)
    case Exact(m) => ix.(exact := ix.exact[m := b])
  }

  function ToFront(s: seq<Entry>, i: nat): seq<Entry>
    requires i < |s|
  {
    [s[i]] + (s[..i] + s[i + 1..])
  }

  lemma MovedOcc(a: seq<Entry>, x: Entry, b: seq<Entry>, e: Entry)
    ensures Occ([x] + (a + b), e) == Occ(a + ([x] + b), e)
  {
    OccConcat([x], a + b, e);
    OccConcat(a, b, e);
    OccConcat(a, [x] + b, e);
    OccConcat([x], b, e);
  }

  lemma ToFrontOcc(s: seq<Entry>, i: nat, e: Entry)
    requires i < |s|
    ensures Occ(ToFront(s, i), e) == Occ(s, e)
  {
    hide Occ;
    MovedOcc(s[..i], s[i], s[i + 1..], e);
    assert s == s[..i] + ([s[i]] + s[i + 1..]);
  }

  function Drop(s: seq<Entry>, i: nat): seq<Entry>
    requires i < |s|
  {
    s[..i] + s[i + 1..]
  }

  lemma DropOcc(s: seq<Entry>, i: nat, e: Entry)
    requires i < |s|
    ensures Occ(s, e) == Occ(Drop(s, i), e) + Occ([s[i]], e)
  {
    ToFrontOcc(s, i, e);
    OccConcat([s[i]], Drop(s, i), e);
    assert ToFront(s, i) == [s[i]] + Drop(s, i);
  }

  lemma ToFrontSorted(s: seq<Entry>, i: nat)
    requires i < |s| && Sorted(s) && s[i].created <= s[0].created
    ensures Sorted(ToFront(s, i))
  {
    var t := ToFront(s, i);
    assert forall j :: 0 <= j < |t| ==> t[j] == if j == 0 then s[i] else if j <= i then s[j - 1] else s[j];
  }

  lemma ReplacedBucket(ix: Index, all: Resources, k: Key, b: seq<Entry>)
    requires IndexOf(ix, all) && b != [] && Sorted(b) && forall e :: Occ(b, e) == Occ(ix.Bucket(k), e)
    ensures IndexOf(WithBucket(ix, k, b), all)
  {
    hide Occ, Expected, Sorted;
    var other := WithBucket(ix, k, b);
    forall j
      ensures Holds(other, all, j) && Sorted(other.Bucket(j))
    {
      assert Holds(ix, all, j) && Sorted(ix.Bucket(j));
      assert other.Bucket(j) == if j == k then b else ix.Bucket(j);
    }
  }

  lemma BucketOf(ix: Index, all: Resources, k: Key)
    requires IndexOf(ix, all)
    ensures Holds(ix, all, k) && Sorted(ix.Bucket(k))
  {
  }

  /** The sort fixes no order among entries of the same age: any oldest entry may be the one in front. */
  lemma AnyOldestMayBeFirst(ix: Index, all: Resources, k: Key, e: Entry) returns (other: Index)
    requires IndexOf(ix, all) && Oldest(all, k, e)
    ensures IndexOf(other, all) && other.Bucket(k) != [] && other.Bucket(k)[0] == e
    ensures forall j :: j != k ==> other.Bucket(j) == ix.Bucket(j)
  {
    hide Occ, IndexOf, Holds, Sorted, Candidate;
    var b := ix.Bucket(k);
    BucketOf(ix, all, k);
    BucketMembers(ix, all, k, e);
    var i :| 0 <= i < |b| && b[i] == e;
    BucketMembers(ix, all, k, b[0]);
    assert b[0] in b && e.created <= b[0].created;
    ToFrontSorted(b, i);
    forall x
      ensures Occ(ToFront(b, i), x) == Occ(b, x)
    {
      ToFrontOcc(b, i, x);
    }
    ReplacedBucket(ix, all, k, ToFront(b, i));
    other := WithBucket(ix, k, ToFront(b, i));
  }

  /** The key whose bucket answers for the model. */
  ghost function Deciding(all: Resources, m: Model): Key {
    if HasCandidate(all, Exact(m)) then Exact(m) else Generic
  }

  /** The API says that within one resource the first matching rule is used. Given that some index exists, the answer
      is sure to be a given entry exactly when every oldest candidate is that entry. */
  lemma AnswerDeterminedIff(ix: Index, all: Resources, m: Model, e: Entry)
    requires IndexOf(ix, all) && Oldest(all, Deciding(all, m), e)
    ensures (forall any :: IndexOf(any, all) ==> Answer(any, m) == Some(e))
       <==> (forall other :: Oldest(all, Deciding(all, m), other) ==> other == e)
  {
    if other :| Oldest(all, Deciding(all, m), other) && other != e {
      var swapped := AnyOldestMayBeFirst(ix, all, Deciding(all, m), other);
      FirstIsOldest(swapped, all, Exact(m));
      assert Answer(swapped, m) == Some(other);
    } else {
      forall any | IndexOf(any, all)
        ensures Answer(any, m) == Some(e)
      {
        FirstIsOldest(any, all, Exact(m));
        FirstIsOldest(any, all, Generic);
      }
    }
  }

  /** A resource with two generic rules: an index of it may answer with the second. */
  lemma ListOrderNotKept(n: Name, m: Model, t: Target)
    ensures var first, second := Rule([], []), Rule([], [t]);
            var all: Resources := map[n := Resource(n, 0, [first, second])];
            exists ix :: IndexOf(ix, all) && Answer(ix, m) == Some(Entry(second, 0, n))
  {
    var first, second := Rule([], []), Rule([], [t]);
    var rules := [first, second];
    var all: Resources := map[n := Resource(n, 0, rules)];
    var ix := Index([Entry(second, 0, n), Entry(first, 0, n)], map[]);
    forall k
      ensures Holds(ix, all, k) && Sorted(ix.Bucket(k))
    {
      forall e
        ensures Occ(ix.Bucket(k), e) == Expected(all, k, e)
      {
        TwoOcc(first, second, e.rule);
        TwoOcc(Entry(second, 0, n), Entry(first, 0, n), e);
        OccMember(rules, e.rule);
      }
    }
    assert IndexOf(ix, all) && Answer(ix, m) == Some(Entry(second, 0, n));
  }

  lemma TwoOcc<T>(a: T, b: T, x: T)
    ensures Occ([a, b], x) == (if a == x then 1 else 0) + if b == x then 1 else 0
  {
    assert [a, b][..1] == [a] && [a][..0] == [];
    assert Occ([a], x) == if a == x then 1 else 0;
  }
}
