// Which endpoints a request asks for, and the cache key made from it (pkg/epp/requestcontrol/candidates.go).
module CacheKey {
  import opened Wrappers
  import opened Sequences

  /** An element of the subset list: a string, or something else, which is ignored. */
  datatype Item = Str(s: string) | Other

  datatype Metadata = NoMetadata | NoNamespace | NoKey | Subset(items: seq<Item>)

  const DEFAULT_KEY := "__default__"
  const EMPTY_KEY := "__explicit_empty__"

  function Strings(items: seq<Item>): seq<string> {
    if items == [] then []
    else Strings(items[..|items| - 1]) + if items[|items| - 1].Str? then [items[|items| - 1].s] else []
  }

  // ---- The delegate ----

  /** The address of an endpoint string: what comes before the last colon. */
  function AddressOf(s: string): string {
    if ':' !in s then s
    else if s[|s| - 1] == ':' then s[..|s| - 1]
    else AddressOf(s[..|s| - 1])
  }

  datatype Selection = All | Only(addresses: set<string>)

  function SelectionOf(md: Metadata): Selection {
    if !md.Subset? then All else Only(Addresses(Strings(md.items)))
  }

  function Addresses(strings: seq<string>): set<string> {
    set s | s in strings :: AddressOf(s)
  }

  /** An endpoint of the datastore; without metadata it has no address. */
  datatype Endpoint = Endpoint(id: nat, address: Option<string>)

  predicate Chosen(sel: Selection, e: Endpoint) { sel.All? || (e.address.Some? && e.address.value in sel.addresses) }

  function Filtered(store: seq<Endpoint>, sel: Selection): seq<Endpoint> {
    if store == [] then []
    else Filtered(store[..|store| - 1], sel) + if Chosen(sel, store[|store| - 1]) then [store[|store| - 1]] else []
  }

  /** What the datastore delegate answers. */
  function Answer(disabled: bool, store: seq<Endpoint>, md: Metadata): seq<Endpoint> {
    Filtered(store, if disabled then All else SelectionOf(md))
  }

  method Filter(store: seq<Endpoint>, sel: Selection) returns (r: seq<Endpoint>)
    ensures r == Filtered(store, sel)
  {
    r := [];
    for i := 0 to |store|
      invariant r == Filtered(store[..i], sel)
    {
      assert store[..i + 1][..i] == store[..i];
      if Chosen(sel, store[i]) {
        r := r + [store[i]];
      }
    }
    assert store[..|store|] == store;
  }

  lemma {:induction false} EveryStringCounts(items: seq<Item>, s: string)
    ensures s in Strings(items) <==> Str(s) in items
    decreases |items|
  {
    if items != [] {
      EveryStringCounts(items[..|items| - 1], s);
      assert items == items[..|items| - 1] + [items[|items| - 1]];
    }
  }

  /** The string is the address alone, or the address, a colon and what has none. */
  ghost predicate Names(s: string, address: string) {
    if ':' !in s then s == address else exists port :: ':' !in port && s == address + ":" + port
  }

  lemma NamesIff(s: string, address: string)
    ensures Names(s, address) <==> AddressOf(s) == address
  {
    if ':' in s {
      LastColon(s);
      var port :| ':' !in port && s == AddressOf(s) + ":" + port;
      if other :| ':' !in other && s == address + ":" + other {
        SameCut(AddressOf(s), port, address, other);
      }
    }
  }

  lemma {:induction false} LastColon(s: string)
    requires ':' in s
    ensures exists port :: ':' !in port && s == AddressOf(s) + ":" + port
    decreases |s|
  {
    var front, last := s[..|s| - 1], s[|s| - 1];
    assert s == front + [last];
    if last == ':' {
      assert ':' !in "" && s == AddressOf(s) + ":" + "";
    } else {
      LastColon(front);
      var port :| ':' !in port && front == AddressOf(front) + ":" + port;
      assert ':' !in port + [last] && s == AddressOf(s) + ":" + (port + [last]);
    }
  }

  /** There is one last colon. */
  lemma SameCut(a: string, p: string, b: string, q: string)
    requires ':' !in p && ':' !in q && a + ":" + p == b + ":" + q
    ensures a == b
  {
    var s := a + ":" + p;
    assert s[|a|] == ':' && s[|b|] == ':';
    assert a == s[..|a|] && b == s[..|b|];
    NoLaterColon(a, p);
    NoLaterColon(b, q);
    assert |a| == |b|;
  }

  lemma NoLaterColon(a: string, p: string)
    requires ':' !in p
    ensures forall k :: |a| < k <= |a| + |p| ==> (a + ":" + p)[k] != ':'
  {
    assert forall k :: |a| < k <= |a| + |p| ==> (a + ":" + p)[k] == p[k - |a| - 1];
  }

  /** An endpoint is located exactly when the filter is off, no subset was given, or a string of the subset names its
      address. */
  lemma LocatedIff(disabled: bool, store: seq<Endpoint>, md: Metadata, e: Endpoint)
    ensures e in Answer(disabled, store, md) <==>
              && e in store
              && (disabled || !md.Subset? ||
                  (e.address.Some? && exists s :: Str(s) in md.items && Names(s, e.address.value)))
  {
    hide AddressOf, Names, Answer;
    ChosenIff(disabled, store, md, e);
    if md.Subset? && e.address.Some? {
      forall s
        ensures Names(s, e.address.value) <==> AddressOf(s) == e.address.value
      {
        NamesIff(s, e.address.value);
      }
    }
  }

  lemma {:induction false} ChosenIff(disabled: bool, store: seq<Endpoint>, md: Metadata, e: Endpoint)
    ensures e in Answer(disabled, store, md) <==>
              && e in store
              && (disabled || !md.Subset? ||
                  (e.address.Some? && exists s :: Str(s) in md.items && AddressOf(s) == e.address.value))
    decreases |store|
  {
    if store != [] {
      ChosenIff(disabled, store[..|store| - 1], md, e);
      assert store == store[..|store| - 1] + [store[|store| - 1]];
      if md.Subset? {
        forall s
          ensures s in Strings(md.items) <==> Str(s) in md.items
        {
          EveryStringCounts(md.items, s);
        }
      }
    }
  }

  method Locate(disabled: bool, store: seq<Endpoint>, md: Metadata) returns (r: seq<Endpoint>)
    ensures r == Answer(disabled, store, md)
  {
    if disabled || !md.Subset? {
      r := Filter(store, All);
      return;
    }
    var items := md.items;
    if |items| == 0 {
      NothingChosen(store);
      assert Addresses(Strings(items)) == {};
      return [];
    }
    var addresses: set<string> := {};
    for i := 0 to |items|
      invariant addresses == Addresses(Strings(items[..i]))
    {
      assert items[..i + 1][..i] == items[..i];
      if items[i].Str? {
        OneMoreAddress(Strings(items[..i]), items[i].s);
        addresses := addresses + {AddressOf(items[i].s)};
      }
    }
    assert items[..|items|] == items;
    r := Filter(store, Only(addresses));
  }

  lemma OneMoreAddress(strings: seq<string>, s: string)
    ensures Addresses(strings + [s]) == Addresses(strings) + {AddressOf(s)}
  {
    hide AddressOf;
    assert forall x :: x in strings + [s] <==> x in strings || x == s;
  }

  lemma {:induction false} NothingChosen(store: seq<Endpoint>)
    ensures Filtered(store, Only({})) == []
    decreases |store|
  {
    if store != [] {
      NothingChosen(store[..|store| - 1]);
    }
  }

  // ---- The lexicographic order ----

  predicate LexLe(a: string, b: string) {
    a == "" || (b != "" && (a[0] < b[0] || (a[0] == b[0] && LexLe(a[1..], b[1..]))))
  }

  lemma {:induction false} LexTotal(a: string, b: string)
    ensures LexLe(a, b) || LexLe(b, a)
    decreases |a|
  {
    if a != "" && b != "" && a[0] == b[0] {
      LexTotal(a[1..], b[1..]);
    }
  }

  lemma {:induction false} LexAntisymmetric(a: string, b: string)
    requires LexLe(a, b) && LexLe(b, a)
    ensures a == b
    decreases |a|
  {
    if a != "" && b != "" {
      LexAntisymmetric(a[1..], b[1..]);
      assert a == [a[0]] + a[1..] && b == [b[0]] + b[1..];
    }
  }

  lemma {:induction false} LexTransitive(a: string, b: string, c: string)
    requires LexLe(a, b) && LexLe(b, c)
    ensures LexLe(a, c)
    decreases |a|
  {
    if a != "" && a[0] == b[0] == c[0] {
      LexTransitive(a[1..], b[1..], c[1..]);
    }
  }

  // ---- Sorting ----

  predicate Sorted(s: seq<string>) { forall i, j :: 0 <= i < j < |s| ==> LexLe(s[i], s[j]) }

  function Insert(s: seq<string>, x: string): seq<string> {
    if s == [] || LexLe(s[|s| - 1], x) then s + [x] else Insert(s[..|s| - 1], x) + [s[|s| - 1]]
  }

  function Sort(s: seq<string>): seq<string> {
    if s == [] then [] else Insert(Sort(s[..|s| - 1]), s[|s| - 1])
  }

  lemma {:induction false} InsertOcc(s: seq<string>, x: string, y: string)
    ensures Occ(Insert(s, x), y) == Occ(s, y) + if x == y then 1 else 0
    decreases |s|
  {
    if s == [] || LexLe(s[|s| - 1], x) {
      assert (s + [x])[..|s|] == s;
    } else {
      InsertOcc(s[..|s| - 1], x, y);
      var t := Insert(s[..|s| - 1], x);
      assert (t + [s[|s| - 1]])[..|t|] == t;
    }
  }

  lemma {:induction false} SortOcc(s: seq<string>, y: string)
    ensures Occ(Sort(s), y) == Occ(s, y)
    decreases |s|
  {
    if s != [] {
      SortOcc(s[..|s| - 1], y);
      InsertOcc(Sort(s[..|s| - 1]), s[|s| - 1], y);
    }
  }

  lemma InsertMember(s: seq<string>, x: string, y: string)
    ensures y in Insert(s, x) <==> y in s || y == x
  {
    OccMember(Insert(s, x), y);
    OccMember(s, y);
    InsertOcc(s, x, y);
  }

  lemma {:induction false} InsertSorted(s: seq<string>, x: string)
    requires Sorted(s)
    ensures Sorted(Insert(s, x))
    decreases |s|
  {
    if s != [] {
      var front, last := s[..|s| - 1], s[|s| - 1];
      if LexLe(last, x) {
        forall i | 0 <= i < |s|
          ensures LexLe(s[i], x)
        {
          if i < |s| - 1 {
            LexTransitive(s[i], last, x);
          }
        }
      } else {
        LexTotal(last, x);
        InsertSorted(front, x);
        var t := Insert(front, x);
        forall i | 0 <= i < |t|
          ensures LexLe(t[i], last)
        {
          InsertMember(front, x, t[i]);
        }
        assert Sorted(t + [last]);
      }
    }
  }

  lemma {:induction false} SortSorted(s: seq<string>)
    ensures Sorted(Sort(s))
    decreases |s|
  {
    if s != [] {
      SortSorted(s[..|s| - 1]);
      InsertSorted(Sort(s[..|s| - 1]), s[|s| - 1]);
    }
  }

  ghost predicate SameStrings(s: seq<string>, t: seq<string>) { forall x :: Occ(s, x) == Occ(t, x) }

  lemma LastAgrees(s: seq<string>, t: seq<string>)
    requires Sorted(s) && Sorted(t) && SameStrings(s, t) && s != [] && t != []
    ensures s[|s| - 1] == t[|t| - 1]
  {
    var a, b := s[|s| - 1], t[|t| - 1];
    OccMember(s, a);
    OccMember(t, a);
    OccMember(s, b);
    OccMember(t, b);
    assert a in t && b in s;
    LexTotal(a, a);
    LexTotal(b, b);
    assert LexLe(a, b) && LexLe(b, a);
    LexAntisymmetric(a, b);
  }

  lemma {:induction false} SortedUnique(s: seq<string>, t: seq<string>)
    requires Sorted(s) && Sorted(t) && SameStrings(s, t)
    ensures s == t
    decreases |s|
  {
    hide LexLe;
    if s == [] {
      if t != [] {
        OccMember(t, t[0]);
      }
    } else {
      OccMember(s, s[0]);
      OccMember(t, s[0]);
      assert t != [];
      LastAgrees(s, t);
      var a, b := s[..|s| - 1], t[..|t| - 1];
      forall x
        ensures Occ(a, x) == Occ(b, x)
      {
        assert Occ(s, x) == Occ(t, x);
      }
      SortedUnique(a, b);
      assert s == a + [s[|s| - 1]] && t == b + [t[|t| - 1]];
    }
  }

  /** The order of a list does not matter once sorted, and nothing else is lost. */
  lemma SortCanonical(s: seq<string>, t: seq<string>)
    ensures Sort(s) == Sort(t) <==> SameStrings(s, t)
  {
    SortSorted(s);
    SortSorted(t);
    forall x
      ensures Occ(Sort(s), x) == Occ(s, x) && Occ(Sort(t), x) == Occ(t, x)
    {
      SortOcc(s, x);
      SortOcc(t, x);
    }
    if SameStrings(s, t) {
      SortedUnique(Sort(s), Sort(t));
    }
  }

  // ---- Joining ----

  function Join(s: seq<string>): string {
    if s == [] then "" else if |s| == 1 then s[0] else Join(s[..|s| - 1]) + "|" + s[|s| - 1]
  }

  predicate BarFree(s: seq<string>) { forall i :: 0 <= i < |s| ==> '|' !in s[i] }

  function AfterBar(s: string): nat {
    if s == "" || s[|s| - 1] == '|' then 0 else 1 + AfterBar(s[..|s| - 1])
  }

  lemma {:induction false} AfterBarOf(a: string, x: string)
    requires '|' !in x
    ensures AfterBar(a + "|" + x) == |x|
    decreases |x|
  {
    if x == "" {
      assert a + "|" + x == a + "|";
    } else {
      var front := x[..|x| - 1];
      AfterBarOf(a, front);
      assert (a + "|" + x)[..|a + "|" + x| - 1] == a + "|" + front;
    }
  }

  lemma TailAfterBar(a: string, x: string, b: string, y: string)
    requires '|' !in x && '|' !in y && a + "|" + x == b + "|" + y
    ensures a == b && x == y
  {
    AfterBarOf(a, x);
    AfterBarOf(b, y);
    var s, t := a + "|" + x, b + "|" + y;
    assert a == s[..|a|] && b == t[..|b|] && x == s[|a| + 1..] && y == t[|b| + 1..];
  }

  lemma JoinHasBar(s: seq<string>)
    requires BarFree(s) && s != []
    ensures '|' in Join(s) <==> |s| > 1
  {
    if |s| > 1 {
      assert Join(s)[|Join(s[..|s| - 1])|] == '|';
    }
  }

  lemma {:induction false} JoinInjective(s: seq<string>, t: seq<string>)
    requires BarFree(s) && BarFree(t) && s != [] && t != [] && Join(s) == Join(t)
    ensures s == t
    decreases |s|
  {
    JoinHasBar(s);
    JoinHasBar(t);
    if |s| > 1 {
      TailAfterBar(Join(s[..|s| - 1]), s[|s| - 1], Join(t[..|t| - 1]), t[|t| - 1]);
      JoinInjective(s[..|s| - 1], t[..|t| - 1]);
      assert s == s[..|s| - 1] + [s[|s| - 1]] && t == t[..|t| - 1] + [t[|t| - 1]];
    } else {
      assert s == [s[0]] && t == [t[0]];
    }
  }

  /** All the strings, split at their bars. */
  function Cut(s: seq<string>): seq<string> {
    if s == [] then [] else Cut(s[..|s| - 1]) + Split(s[|s| - 1], '|')
  }

  lemma {:induction false} SplitJoins(x: string)
    ensures Join(Split(x, '|')) == x && BarFree(Split(x, '|'))
    decreases |x|
  {
    if x != "" {
      var front, last := Split(x[..|x| - 1], '|'), x[|x| - 1];
      SplitJoins(x[..|x| - 1]);
      assert x == x[..|x| - 1] + [last];
      if last == '|' {
        assert (front + [""])[..|front|] == front;
      } else {
        JoinLonger(front, last);
      }
    }
  }

  lemma JoinSnoc(s: seq<string>, x: string)
    ensures Join(s + [x]) == if s == [] then x else Join(s) + "|" + x
  {
    assert (s + [x])[..|s|] == s;
  }

  lemma JoinLonger(s: seq<string>, c: char)
    requires s != []
    ensures Join(s[..|s| - 1] + [s[|s| - 1] + [c]]) == Join(s) + [c]
  {
    hide Join;
    var front, x := s[..|s| - 1], s[|s| - 1];
    assert s == front + [x];
    JoinSnoc(front, x);
    JoinSnoc(front, x + [c]);
  }

  lemma {:induction false} JoinConcat(s: seq<string>, t: seq<string>)
    requires s != [] && t != []
    ensures Join(s + t) == Join(s) + "|" + Join(t)
    decreases |t|
  {
    var front := t[..|t| - 1];
    assert (s + t)[..|s + t| - 1] == s + front;
    if |t| == 1 {
      assert s + front == s;
    } else {
      JoinConcat(s, front);
    }
  }

  lemma {:induction false} CutJoins(s: seq<string>)
    requires s != []
    ensures Cut(s) != [] && Join(Cut(s)) == Join(s) && BarFree(Cut(s))
    decreases |s|
  {
    var front, last := s[..|s| - 1], s[|s| - 1];
    SplitJoins(last);
    if front == [] {
      assert Cut(s) == [] + Split(last, '|') == Split(last, '|');
    } else {
      CutJoins(front);
      JoinConcat(Cut(front), Split(last, '|'));
    }
  }

  lemma {:induction false} CutOfBarFree(s: seq<string>)
    requires BarFree(s)
    ensures Cut(s) == s
    decreases |s|
  {
    if s != [] {
      var front, last := s[..|s| - 1], s[|s| - 1];
      CutOfBarFree(front);
      SplitFree(last, '|');
      assert s == front + [last];
    }
  }

  /** Lists join to the same string exactly when, split at their bars, they are the same. */
  lemma JoinEqualIff(s: seq<string>, t: seq<string>)
    requires s != [] && t != []
    ensures Join(s) == Join(t) <==> Cut(s) == Cut(t)
  {
    CutJoins(s);
    CutJoins(t);
    if Join(s) == Join(t) {
      JoinInjective(Cut(s), Cut(t));
    }
  }

  // ---- The key ----

  function Key(md: Metadata): string {
    if !md.Subset? then DEFAULT_KEY
    else if md.items == [] then EMPTY_KEY
    else if |md.items| == 1 then (if md.items[0].Str? then md.items[0].s else DEFAULT_KEY)
    else Join(Sort(Strings(md.items)))
  }

  method GenerateCacheKey(md: Metadata) returns (key: string)
    ensures key == Key(md)
  {
    if !md.Subset? {
      return DEFAULT_KEY;
    }
    var items := md.items;
    if |items| == 0 {
      return EMPTY_KEY;
    }
    if |items| == 1 {
      if items[0].Str? {
        return items[0].s;
      }
      return DEFAULT_KEY;
    }
    var endpoints: seq<string> := [];
    for i := 0 to |items|
      invariant endpoints == Strings(items[..i])
    {
      assert items[..i + 1][..i] == items[..i];
      if items[i].Str? {
        endpoints := endpoints + [items[i].s];
      }
    }
    assert items[..|items|] == items;
    key := Join(Sort(endpoints));
  }

  /** No string of the request has a bar. */
  predicate NoBars(md: Metadata) { md.Subset? ==> BarFree(Strings(md.items)) }

  /** The requests that can share one cache: no subset, an empty one, or one with a string in it other than a lone
      sentinel. */
  predicate Plain(md: Metadata) {
    && NoBars(md)
    && (md.Subset? && md.items != [] ==>
          && Strings(md.items) != []
          && Strings(md.items) != [DEFAULT_KEY]
          && Strings(md.items) != [EMPTY_KEY])
  }

  lemma SortOne(x: string)
    ensures Sort([x]) == [x]
  {
    assert [x][..0] == [];
    assert Sort([]) == [] && Insert([], x) == [x];
  }

  lemma OneItem(item: Item)
    ensures Strings([item]) == if item.Str? then [item.s] else []
  {
    assert [item][..0] == [];
    assert Strings([]) == [];
  }

  /** With a string in it, a request's key is its strings sorted and joined, whatever its length. */
  lemma KeyOfStrings(md: Metadata)
    requires md.Subset? && Strings(md.items) != []
    ensures Key(md) == Join(Sort(Strings(md.items)))
  {
    if |md.items| == 1 {
      OneItem(md.items[0]);
      assert md.items == [md.items[0]];
      SortOne(md.items[0].s);
    }
  }

  lemma SortMember(s: seq<string>, x: string)
    ensures x in Sort(s) <==> x in s
  {
    SortOcc(s, x);
    OccMember(s, x);
    OccMember(Sort(s), x);
  }

  lemma SortEmpty(s: seq<string>)
    ensures Sort(s) == [] <==> s == []
  {
    if s != [] {
      SortMember(s, s[0]);
    }
  }

  lemma SortBarFree(s: seq<string>)
    requires BarFree(s)
    ensures BarFree(Sort(s))
  {
    forall i | 0 <= i < |Sort(s)|
      ensures '|' !in Sort(s)[i]
    {
      SortMember(s, Sort(s)[i]);
    }
  }

  /** Two lists of strings join to the same key exactly when, sorted and split at their bars, they are the same. */
  lemma JoinedKeysEqualIff(s: seq<string>, t: seq<string>)
    requires s != [] && t != []
    ensures Join(Sort(s)) == Join(Sort(t)) <==> Cut(Sort(s)) == Cut(Sort(t))
  {
    SortEmpty(s);
    SortEmpty(t);
    JoinEqualIff(Sort(s), Sort(t));
  }

  /** Without bars: exactly when they have the same strings as often. */
  lemma BarFreeKeysEqualIff(s: seq<string>, t: seq<string>)
    requires BarFree(s) && BarFree(t) && s != [] && t != []
    ensures Join(Sort(s)) == Join(Sort(t)) <==> SameStrings(s, t)
  {
    JoinedKeysEqualIff(s, t);
    SortBarFree(s);
    SortBarFree(t);
    CutOfBarFree(Sort(s));
    CutOfBarFree(Sort(t));
    SortCanonical(s, t);
  }

  lemma SameAddresses(s: seq<string>, t: seq<string>)
    requires SameStrings(s, t)
    ensures Addresses(s) == Addresses(t)
  {
    forall x
      ensures x in s <==> x in t
    {
      OccMember(s, x);
      OccMember(t, x);
    }
  }

  /** A lone string joins to a sentinel only if it is that sentinel. */
  lemma SentinelStrings(s: seq<string>, sentinel: string)
    requires BarFree(s) && s != [] && '|' !in sentinel
    ensures Join(Sort(s)) == sentinel <==> s == [sentinel]
  {
    SortOne(sentinel);
    assert Join([sentinel]) == sentinel;
    BarFreeKeysEqualIff(s, [sentinel]);
    if SameStrings(s, [sentinel]) {
      SameAsOne(s, sentinel);
    }
  }

  lemma SameAsOne(s: seq<string>, x: string)
    requires SameStrings(s, [x]) && s != []
    ensures s == [x]
  {
    var front, last := s[..|s| - 1], s[|s| - 1];
    OccMember([x], last);
    OccMember(s, last);
    assert Occ(s, last) == Occ([x], last);
    forall y
      ensures Occ(front, y) == 0
    {
      assert [x][..0] == [];
      assert Occ(s, y) == Occ([x], y) == if y == x then 1 else 0;
    }
    if front != [] {
      OccMember(front, front[0]);
    }
    assert s == front + [last];
  }

  lemma SentinelsBarFree()
    ensures '|' !in DEFAULT_KEY && '|' !in EMPTY_KEY && DEFAULT_KEY != EMPTY_KEY && DEFAULT_KEY != "" && EMPTY_KEY != ""
  {
  }

  /** What a plain request's key says about it. */
  lemma PlainKey(md: Metadata)
    requires Plain(md)
    ensures Key(md) == DEFAULT_KEY <==> !md.Subset?
    ensures Key(md) == EMPTY_KEY <==> md.Subset? && md.items == []
    ensures md.Subset? && md.items != [] ==> Key(md) == Join(Sort(Strings(md.items)))
  {
    SentinelsBarFree();
    if md.Subset? && md.items != [] {
      KeyOfStrings(md);
      SentinelStrings(Strings(md.items), DEFAULT_KEY);
      SentinelStrings(Strings(md.items), EMPTY_KEY);
    }
  }

  /** Among plain requests an equal key means an equal selection, so an equal answer from every store. */
  lemma EqualKeysEqualAnswers(a: Metadata, b: Metadata)
    requires Plain(a) && Plain(b) && Key(a) == Key(b)
    ensures SelectionOf(a) == SelectionOf(b)
    ensures forall disabled, store :: Answer(disabled, store, a) == Answer(disabled, store, b)
  {
    PlainKey(a);
    PlainKey(b);
    if a.Subset? && a.items != [] {
      BarFreeKeysEqualIff(Strings(a.items), Strings(b.items));
      SameAddresses(Strings(a.items), Strings(b.items));
    }
  }

  /** The order of the strings does not change the key. */
  lemma KeyIgnoresOrder(a: Metadata, b: Metadata)
    requires a.Subset? && b.Subset? && |a.items| > 1 && |b.items| > 1
    requires SameStrings(Strings(a.items), Strings(b.items))
    ensures Key(a) == Key(b)
  {
    SortCanonical(Strings(a.items), Strings(b.items));
  }
}
