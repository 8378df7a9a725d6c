// How the index of model-rewrite rules changes with its resources, and in which order it keeps the rules
// of one resource (pkg/epp/datastore/modelrewritestore.go).
module RewriteOrder {
  import opened Wrappers
  import opened Sequences
  import opened RewriteIndex

  // ---- Deleting a resource's rules ----

  function Without(s: seq<Entry>, n: Name): seq<Entry> {
    if s == [] then []
    else Without(s[..|s| - 1], n) + if s[|s| - 1].parent != n then [s[|s| - 1]] else []
  }

  lemma {:induction false} WithoutOcc(s: seq<Entry>, n: Name, e: Entry)
    ensures Occ(Without(s, n), e) == if e.parent == n then 0 else Occ(s, e)
    decreases |s|
  {
    if s != [] {
      var last := s[|s| - 1];
      WithoutOcc(s[..|s| - 1], n, e);
      OccConcat(Without(s[..|s| - 1], n), if last.parent != n then [last] else [], e);
      assert Occ([last], e) == if last == e then 1 else 0 by {
        assert [last][..0] == [];
      }
    }
  }

  lemma {:induction false} WithoutSorted(s: seq<Entry>, n: Name)
    requires Sorted(s)
    ensures Sorted(Without(s, n)) && forall e :: e in Without(s, n) ==> e in s
    decreases |s|
  {
    if s != [] {
      var front, last := s[..|s| - 1], s[|s| - 1];
      WithoutSorted(front, n);
      assert forall e :: e in front ==> e.created <= last.created && e in s;
      assert forall e :: e in Without(front, n) ==> e.created <= last.created;
    }
  }

  predicate Filtered(r: seq<Entry>, s: seq<Entry>, n: Name) { r == Without(s, n) }

  lemma DeletedIndex(ix: Index, after: Index, all: Resources, n: Name)
    requires IndexOf(ix, all) && NoEmptyBucket(after)
    requires forall k :: Filtered(after.Bucket(k), ix.Bucket(k), n)
    ensures IndexOf(after, all - {n})
  {
    hide NoEmptyBucket;
    forall k
      ensures Holds(after, all - {n}, k) && Sorted(after.Bucket(k))
    {
      assert Holds(ix, all, k) && Sorted(ix.Bucket(k)) && Filtered(after.Bucket(k), ix.Bucket(k), n);
      WithoutSorted(ix.Bucket(k), n);
      forall e
        ensures Occ(after.Bucket(k), e) == Expected(all - {n}, k, e)
      {
        WithoutOcc(ix.Bucket(k), n, e);
      }
    }
  }

  // ---- Adding a resource's rules ----

  function EntryOf(res: Resource, i: nat): Entry
    requires i < |res.rules|
  {
    Entry(res.rules[i], res.created, res.name)
  }

  /** What the first `upTo` rules add under a key. */
  function Added(res: Resource, upTo: nat, k: Key): seq<Entry>
    requires upTo <= |res.rules|
  {
    if upTo == 0 then []
    else Added(res, upTo - 1, k) + if Applies(res.rules[upTo - 1], k) then [EntryOf(res, upTo - 1)] else []
  }

  lemma OneMoreAdded(res: Resource, n: nat, k: Key)
    requires n < |res.rules|
    ensures Added(res, n + 1, k)
         == if Applies(res.rules[n], k) then Added(res, n, k) + [EntryOf(res, n)] else Added(res, n, k)
  {
    assert Added(res, n, k) + [] == Added(res, n, k);
  }

  lemma {:induction false} AddedOcc(res: Resource, upTo: nat, k: Key, e: Entry)
    requires upTo <= |res.rules|
    ensures Occ(Added(res, upTo, k), e)
         == if e.parent == res.name && e.created == res.created && Applies(e.rule, k)
            then Occ(res.rules[..upTo], e.rule) else 0
  {
    if upTo > 0 {
      AddedOcc(res, upTo - 1, k, e);
      var n := upTo - 1;
      assert res.rules[..upTo] == res.rules[..n] + [res.rules[n]];
      OccSnoc(res.rules[..n], res.rules[n], e.rule);
      OccSnoc(Added(res, n, k), EntryOf(res, n), e);
      OneMoreAdded(res, n, k);
      hide Occ, Added, Applies;
    }
  }

  lemma SetIndex(ix: Index, after: Index, all: Resources, res: Resource)
    requires IndexOf(ix, all) && NoEmptyBucket(after) && res.name !in all
    requires forall k :: Sorted(after.Bucket(k))
    requires forall k, e :: Occ(after.Bucket(k), e) == Occ(ix.Bucket(k), e) + Occ(Added(res, |res.rules|, k), e)
    ensures IndexOf(after, all[res.name := res])
  {
    hide NoEmptyBucket, Sorted, Occ, Added, Applies;
    assert res.rules[..|res.rules|] == res.rules;
    var later := all[res.name := res];
    forall k
      ensures Holds(after, later, k)
    {
      assert Holds(ix, all, k);
      forall e
        ensures Occ(after.Bucket(k), e) == Expected(later, k, e)
      {
        AddedOcc(res, |res.rules|, k, e);
      }
    }
  }

  // ---- The order of one resource's rules ----

  /** The entries of one resource, in order. */
  function Of(s: seq<Entry>, n: Name): seq<Entry> {
    if s == [] then [] else Of(s[..|s| - 1], n) + if s[|s| - 1].parent == n then [s[|s| - 1]] else []
  }

  /** The entries of one age, in order. */
  function OfAge(s: seq<Entry>, c: int): seq<Entry> {
    if s == [] then [] else OfAge(s[..|s| - 1], c) + if s[|s| - 1].created == c then [s[|s| - 1]] else []
  }

  /** A stable sort keeps the order of entries of the same age. */
  ghost predicate SameOrder(s: seq<Entry>, was: seq<Entry>) { forall c :: OfAge(s, c) == OfAge(was, c) }

  lemma {:induction false} OfConcat(s: seq<Entry>, t: seq<Entry>, n: Name)
    ensures Of(s + t, n) == Of(s, n) + Of(t, n)
    decreases |t|
  {
    if t == [] {
      assert s + t == s;
    } else {
      OfConcat(s, t[..|t| - 1], n);
      assert (s + t)[..|s + t| - 1] == s + t[..|t| - 1];
    }
  }

  lemma {:induction false} OfAgeConcat(s: seq<Entry>, t: seq<Entry>, c: int)
    ensures OfAge(s + t, c) == OfAge(s, c) + OfAge(t, c)
    decreases |t|
  {
    if t == [] {
      assert s + t == s;
    } else {
      OfAgeConcat(s, t[..|t| - 1], c);
      assert (s + t)[..|s + t| - 1] == s + t[..|t| - 1];
    }
  }

  lemma {:induction false} OfNone(s: seq<Entry>, n: Name)
    requires forall i :: 0 <= i < |s| ==> s[i].parent != n
    ensures Of(s, n) == []
    decreases |s|
  {
    if s != [] {
      OfNone(s[..|s| - 1], n);
    }
  }

  lemma {:induction false} OfAgeNone(s: seq<Entry>, c: int)
    requires forall i :: 0 <= i < |s| ==> s[i].created != c
    ensures OfAge(s, c) == []
    decreases |s|
  {
    if s != [] {
      OfAgeNone(s[..|s| - 1], c);
    }
  }

  /** All entries of the resource are of one age. */
  predicate Aged(s: seq<Entry>, n: Name, c: int) { forall i :: 0 <= i < |s| && s[i].parent == n ==> s[i].created == c }

  lemma {:induction false} OfWithinAge(s: seq<Entry>, n: Name, c: int)
    requires Aged(s, n, c)
    ensures Of(OfAge(s, c), n) == Of(s, n)
    decreases |s|
  {
    if s != [] {
      var front, last := s[..|s| - 1], s[|s| - 1];
      OfWithinAge(front, n, c);
      if last.created == c {
        OfConcat(OfAge(front, c), [last], n);
        OfOne(last, n);
      } else {
        assert OfAge(s, c) == OfAge(front, c);
      }
    }
  }

  lemma OfOne(e: Entry, n: Name)
    ensures Of([e], n) == if e.parent == n then [e] else []
  {
    assert [e][..0] == [];
  }

  lemma {:induction false} OfWithout(s: seq<Entry>, n: Name, m: Name)
    requires m != n
    ensures Of(Without(s, n), m) == Of(s, m)
    decreases |s|
  {
    if s != [] {
      var front, last := s[..|s| - 1], s[|s| - 1];
      OfWithout(front, n, m);
      if last.parent != n {
        OfConcat(Without(front, n), [last], m);
        OfOne(last, m);
      } else {
        assert Without(s, n) == Without(front, n) && Of(s, m) == Of(front, m);
      }
    }
  }

  lemma {:induction false} OfAdded(res: Resource, upTo: nat, k: Key, n: Name)
    requires upTo <= |res.rules|
    ensures Of(Added(res, upTo, k), n) == if n == res.name then Added(res, upTo, k) else []
  {
    if upTo > 0 {
      var front := Added(res, upTo - 1, k);
      OfAdded(res, upTo - 1, k, n);
      if Applies(res.rules[upTo - 1], k) {
        OfConcat(front, [EntryOf(res, upTo - 1)], n);
        OfOne(EntryOf(res, upTo - 1), n);
      } else {
        assert Added(res, upTo, k) == front;
      }
    }
  }

  /** Under every key the rules of each resource stand in list order. */
  ghost predicate InListOrder(ix: Index, all: Resources) {
    forall k, n :: n in all ==> Of(ix.Bucket(k), n) == Added(all[n], |all[n].rules|, k)
  }

  lemma DeletedInOrder(ix: Index, after: Index, all: Resources, n: Name)
    requires InListOrder(ix, all) && forall k :: Filtered(after.Bucket(k), ix.Bucket(k), n)
    ensures InListOrder(after, all - {n})
  {
    hide Of, Without, Added;
    forall k, m | m in all - {n}
      ensures Of(after.Bucket(k), m) == Added(all[m], |all[m].rules|, k)
    {
      assert Filtered(after.Bucket(k), ix.Bucket(k), n);
      OfWithout(ix.Bucket(k), n, m);
    }
  }

  lemma BucketAged(ix: Index, all: Resources, k: Key, n: Name)
    requires Holds(ix, all, k)
    ensures n in all ==> Aged(ix.Bucket(k), n, all[n].created)
    ensures n !in all ==> Of(ix.Bucket(k), n) == []
  {
    var b := ix.Bucket(k);
    forall i | 0 <= i < |b|
      ensures b[i].parent in all && b[i].created == all[b[i].parent].created
    {
      BucketMembers(ix, all, k, b[i]);
    }
    if n !in all {
      OfNone(b, n);
    }
  }

  lemma SortedOrder(s: seq<Entry>, was: seq<Entry>, n: Name, c: int)
    requires SameOrder(s, was) && Aged(s, n, c) && Aged(was, n, c)
    ensures Of(s, n) == Of(was, n)
  {
    OfWithinAge(s, n, c);
    OfWithinAge(was, n, c);
    assert OfAge(s, c) == OfAge(was, c);
  }

  lemma SameAged(s: seq<Entry>, was: seq<Entry>, n: Name, c: int)
    requires SameEntries(s, was) && Aged(s, n, c)
    ensures Aged(was, n, c)
  {
    forall i | 0 <= i < |was| && was[i].parent == n
      ensures was[i].created == c
    {
      OccMember(was, was[i]);
      assert Occ(s, was[i]) == Occ(was, was[i]);
      OccMember(s, was[i]);
    }
  }

  /** Adding a resource's rules at the end and sorting stably keeps the order of every resource's rules. */
  lemma SetInOrder(ix: Index, appended: Index, after: Index, all: Resources, res: Resource)
    requires IndexOf(ix, all) && InListOrder(ix, all) && res.name !in all && IndexOf(after, all[res.name := res])
    requires forall k :: appended.Bucket(k) == ix.Bucket(k) + Added(res, |res.rules|, k)
    requires forall k :: SameEntries(after.Bucket(k), appended.Bucket(k))
                      && SameOrder(after.Bucket(k), appended.Bucket(k))
    ensures InListOrder(after, all[res.name := res])
  {
    hide Of, Added, SameEntries, SameOrder, Aged;
    var later := all[res.name := res];
    forall k, n | n in later
      ensures Of(after.Bucket(k), n) == Added(later[n], |later[n].rules|, k)
    {
      assert Holds(ix, all, k) && Holds(after, later, k);
      assert SameEntries(after.Bucket(k), appended.Bucket(k)) && SameOrder(after.Bucket(k), appended.Bucket(k));
      BucketAged(ix, all, k, n);
      BucketAged(after, later, k, n);
      SameAged(after.Bucket(k), appended.Bucket(k), n, later[n].created);
      SortedOrder(after.Bucket(k), appended.Bucket(k), n, later[n].created);
      OfConcat(ix.Bucket(k), Added(res, |res.rules|, k), n);
      OfAdded(res, |res.rules|, k, n);
    }
  }

  // ---- The first matching rule of the oldest resource ----

  predicate DistinctTimes(all: Resources) {
    forall n, m :: n in all && m in all && n != m ==> all[n].created != all[m].created
  }

  predicate FirstOf(res: Resource, k: Key, i: int) {
    && 0 <= i < |res.rules| && Applies(res.rules[i], k)
    && forall j :: 0 <= j < i ==> !Applies(res.rules[j], k)
  }

  predicate HasMatch(res: Resource, k: Key) { exists i :: 0 <= i < |res.rules| && Applies(res.rules[i], k) }

  /** The first matching rule, in list order, of the one oldest resource that has a match. */
  ghost predicate FirstRuleOfOldest(all: Resources, k: Key, e: Entry) {
    && e.parent in all
    && (exists i :: FirstOf(all[e.parent], k, i) && e == EntryOf(all[e.parent], i))
    && (forall n :: n in all && n != e.parent && HasMatch(all[n], k) ==> all[e.parent].created < all[n].created)
  }

  /** The API's rule, in full: an exact match before a generic one, then the oldest resource, then list order. */
  ghost predicate ApiAnswer(all: Resources, m: Model, answer: Option<Entry>) {
    if HasCandidate(all, Exact(m)) then answer.Some? && FirstRuleOfOldest(all, Exact(m), answer.value)
    else if HasCandidate(all, Generic) then answer.Some? && FirstRuleOfOldest(all, Generic, answer.value)
    else answer.None?
  }

  lemma {:induction false} AddedFirst(res: Resource, upTo: nat, k: Key)
    requires upTo <= |res.rules| && Added(res, upTo, k) != []
    ensures exists i :: FirstOf(res, k, i) && Added(res, upTo, k)[0] == EntryOf(res, i)
  {
    if Added(res, upTo - 1, k) != [] {
      AddedFirst(res, upTo - 1, k);
    } else {
      NoneAdded(res, upTo - 1, k);
      assert FirstOf(res, k, upTo - 1);
    }
  }

  lemma {:induction false} NoneAdded(res: Resource, upTo: nat, k: Key)
    requires upTo <= |res.rules| && Added(res, upTo, k) == []
    ensures forall j :: 0 <= j < upTo ==> !Applies(res.rules[j], k)
  {
    if upTo > 0 {
      NoneAdded(res, upTo - 1, k);
    }
  }

  lemma {:induction false} OfFirst(s: seq<Entry>)
    requires s != []
    ensures Of(s, s[0].parent) != [] && Of(s, s[0].parent)[0] == s[0]
    decreases |s|
  {
    if |s| > 1 {
      OfFirst(s[..|s| - 1]);
    }
  }

  lemma FirstRuleStandsFirst(ix: Index, all: Resources, k: Key)
    requires Named(all) && IndexOf(ix, all) && InListOrder(ix, all) && DistinctTimes(all) && ix.Bucket(k) != []
    ensures FirstRuleOfOldest(all, k, ix.Bucket(k)[0])
  {
    var b := ix.Bucket(k);
    var e := b[0];
    FirstIsOldest(ix, all, k);
    OfFirst(b);
    assert Of(b, e.parent) == Added(all[e.parent], |all[e.parent].rules|, k);
    AddedFirst(all[e.parent], |all[e.parent].rules|, k);
    forall n | n in all && n != e.parent && HasMatch(all[n], k)
      ensures all[e.parent].created < all[n].created
    {
      var i :| 0 <= i < |all[n].rules| && Applies(all[n].rules[i], k);
      assert Candidate(all, k, EntryOf(all[n], i));
    }
  }

  /** With the rules in list order and resources of different ages, the answer is the one the API calls for. */
  lemma AnswerIsTheApis(ix: Index, all: Resources, m: Model)
    requires Named(all) && IndexOf(ix, all) && InListOrder(ix, all) && DistinctTimes(all)
    ensures ApiAnswer(all, m, Answer(ix, m))
  {
    hide IndexOf, InListOrder, DistinctTimes, FirstRuleOfOldest, HasCandidate, Oldest;
    FirstIsOldest(ix, all, Exact(m));
    FirstIsOldest(ix, all, Generic);
    if ix.Bucket(Exact(m)) != [] {
      FirstRuleStandsFirst(ix, all, Exact(m));
    } else if ix.Bucket(Generic) != [] {
      FirstRuleStandsFirst(ix, all, Generic);
    }
  }
}
