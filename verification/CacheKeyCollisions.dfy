// Which requests share a cache key with a request of another selection (generateCacheKey in
// pkg/epp/requestcontrol/candidates.go).
module CacheKeyCollisions {
  import opened Wrappers
  import opened Sequences
  import opened CacheKey

  /** A plain request that a request without bars, but not plain, is taken for. */
  function Lookalike(md: Metadata): Metadata {
    if Key(md) == DEFAULT_KEY then NoMetadata
    else if Key(md) == EMPTY_KEY then Subset([])
    else Subset([Str("")])
  }

  lemma LoneString(md: Metadata, x: string)
    requires md.Subset? && Strings(md.items) == [x]
    ensures Key(md) == x && SelectionOf(md).addresses == {AddressOf(x)}
  {
    KeyOfStrings(md);
    SortOne(x);
  }

  lemma NotPlainDiffers(md: Metadata)
    requires NoBars(md) && !Plain(md)
    ensures Plain(Lookalike(md)) && Key(Lookalike(md)) == Key(md) && SelectionOf(Lookalike(md)) != SelectionOf(md)
  {
    SentinelsBarFree();
    if Strings(md.items) == [] {
      NoStringsKey(md);
      assert Addresses([]) == {};
    } else {
      LoneString(md, Strings(md.items)[0]);
    }
    LookalikePlain(md);
  }

  lemma NoStringsKey(md: Metadata)
    requires md.Subset? && md.items != [] && Strings(md.items) == []
    ensures Key(md) == DEFAULT_KEY || Key(md) == ""
  {
    if |md.items| == 1 {
      OneItem(md.items[0]);
      assert md.items == [md.items[0]];
    } else {
      assert Sort([]) == [] && Join([]) == "";
    }
  }

  lemma LookalikePlain(md: Metadata)
    requires Key(md) == DEFAULT_KEY || Key(md) == EMPTY_KEY || Key(md) == ""
    ensures Plain(Lookalike(md)) && Key(Lookalike(md)) == Key(md)
    ensures SelectionOf(Lookalike(md))
         == if Key(md) == DEFAULT_KEY then All else if Key(md) == EMPTY_KEY then Only({}) else Only({""})
  {
    SentinelsBarFree();
    OneItem(Str(""));
    assert Addresses([]) == {};
    assert Addresses([""]) == {AddressOf("")} && AddressOf("") == "";
  }

  // ---- Against plain requests ----

  /** A request can be mixed up with a plain one. Without bars: its strings are none at all, or a lone sentinel. With
      bars: split at them, its sorted strings are in order and name other addresses. */
  predicate Confusable(md: Metadata) {
    if NoBars(md) then !Plain(md)
    else
      var parts := Cut(Sort(Strings(md.items)));
      Sorted(parts) && Addresses(parts) != Addresses(Strings(md.items))
  }

  lemma {:induction false} BarInJoin(s: seq<string>)
    requires !BarFree(s)
    ensures '|' in Join(s)
    decreases |s|
  {
    if |s| > 1 {
      assert Join(s)[|Join(s[..|s| - 1])|] == '|';
    }
  }

  lemma SortKeepsBars(s: seq<string>)
    requires !BarFree(s)
    ensures !BarFree(Sort(s))
  {
    var i :| 0 <= i < |s| && '|' in s[i];
    SortMember(s, s[i]);
    var j :| 0 <= j < |Sort(s)| && Sort(s)[j] == s[i];
  }

  lemma {:induction false} StringsOfItems(parts: seq<string>)
    ensures Strings(ItemsOf(parts)) == parts
    decreases |parts|
  {
    if parts != [] {
      var n := |parts| - 1;
      StringsOfItems(parts[..n]);
      assert ItemsOf(parts)[..n] == ItemsOf(parts[..n]);
      assert parts == parts[..n] + [parts[n]];
    }
  }

  function ItemsOf(parts: seq<string>): seq<Item> {
    seq(|parts|, i requires 0 <= i < |parts| => Str(parts[i]))
  }

  lemma SortSortedIs(s: seq<string>)
    requires Sorted(s)
    ensures Sort(s) == s
  {
    SortSorted(s);
    forall x
      ensures Occ(Sort(s), x) == Occ(s, x)
    {
      SortOcc(s, x);
    }
    SortedUnique(Sort(s), s);
  }

  /** The parts of a barred request, taken as a request of their own, are plain and have its key. */
  lemma PartsRequest(md: Metadata)
    requires !NoBars(md) && Sorted(Cut(Sort(Strings(md.items))))
    ensures var other := Subset(ItemsOf(Cut(Sort(Strings(md.items)))));
            Plain(other) && Key(other) == Key(md) && SelectionOf(other) == Only(Addresses(Cut(Sort(Strings(md.items)))))
  {
    var strings := Strings(md.items);
    var s := Sort(strings);
    var parts := Cut(s);
    SortEmpty(strings);
    SortKeepsBars(strings);
    BarInJoin(s);
    CutJoins(s);
    KeyOfStrings(md);
    StringsOfItems(parts);
    SortSortedIs(parts);
    KeyOfStrings(Subset(ItemsOf(parts)));
    JoinHasBar(parts);
  }

  /** A plain request with the key of a barred one has its parts as strings. */
  lemma PlainWithBarredKey(md: Metadata, other: Metadata)
    requires !NoBars(md) && Plain(other) && Key(other) == Key(md)
    ensures Sorted(Cut(Sort(Strings(md.items)))) && SelectionOf(other) == Only(Addresses(Cut(Sort(Strings(md.items)))))
  {
    var strings := Strings(md.items);
    SortEmpty(strings);
    SortKeepsBars(strings);
    BarInJoin(Sort(strings));
    KeyOfStrings(md);
    SentinelsBarFree();
    PlainKey(other);
    var t := Strings(other.items);
    JoinedKeysEqualIff(strings, t);
    SortBarFree(t);
    CutOfBarFree(Sort(t));
    SortSorted(t);
    SortedAddresses(t);
  }

  lemma SortedAddresses(t: seq<string>)
    ensures Addresses(Sort(t)) == Addresses(t)
  {
    forall x
      ensures Occ(Sort(t), x) == Occ(t, x)
    {
      SortOcc(t, x);
    }
    SameAddresses(Sort(t), t);
  }

  /** For every request: a plain request of another selection has its key if and only if it is confusable. */
  lemma MixedUpIff(md: Metadata)
    ensures (exists other :: Plain(other) && Key(other) == Key(md) && SelectionOf(other) != SelectionOf(md))
       <==> Confusable(md)
  {
    if NoBars(md) {
      BarFreeMixedUpIff(md);
    } else {
      BarredMixedUpIff(md);
    }
  }

  lemma BarFreeMixedUpIff(md: Metadata)
    requires NoBars(md)
    ensures (exists other :: Plain(other) && Key(other) == Key(md) && SelectionOf(other) != SelectionOf(md))
       <==> !Plain(md)
  {
    if Plain(md) {
      forall other | Plain(other) && Key(other) == Key(md)
        ensures SelectionOf(other) == SelectionOf(md)
      {
        EqualKeysEqualAnswers(md, other);
      }
    } else {
      NotPlainDiffers(md);
      var other := Lookalike(md);
      assert Plain(other) && Key(other) == Key(md) && SelectionOf(other) != SelectionOf(md);
    }
  }

  lemma BarredMixedUpIff(md: Metadata)
    requires !NoBars(md)
    ensures (exists other :: Plain(other) && Key(other) == Key(md) && SelectionOf(other) != SelectionOf(md))
       <==> Confusable(md)
  {
    hide Plain, Key, Cut, Sort;
    var parts := Cut(Sort(Strings(md.items)));
    forall other | Plain(other) && Key(other) == Key(md)
      ensures Sorted(parts) && SelectionOf(other) == Only(Addresses(parts))
    {
      PlainWithBarredKey(md, other);
    }
    if Sorted(parts) {
      PartsRequest(md);
      var other := Subset(ItemsOf(parts));
      assert Plain(other) && Key(other) == Key(md) && SelectionOf(other) == Only(Addresses(parts));
    }
  }

  // ---- Against all requests ----

  lemma {:induction false} AddressPrefix(x: string)
    ensures AddressOf(x) <= x && (':' in x ==> |AddressOf(x)| < |x|)
    decreases |x|
  {
    if ':' in x && x[|x| - 1] != ':' {
      AddressPrefix(x[..|x| - 1]);
    }
  }

  lemma {:induction false} AddressOfConcat(a: string, x: string)
    ensures ':' in x ==> AddressOf(a + x) == a + AddressOf(x)
    ensures ':' !in x && ':' in a ==> AddressOf(a + x) == AddressOf(a)
    ensures ':' !in x && ':' !in a ==> AddressOf(a + x) == a + x
    decreases |x|
  {
    if x == "" {
      assert a + x == a;
    } else {
      var front := x[..|x| - 1];
      assert (a + x)[..|a + x| - 1] == a + front;
      assert x == front + [x[|x| - 1]];
      AddressOfConcat(a, front);
    }
  }

  lemma {:induction false} ColonInJoin(s: seq<string>)
    ensures ':' in Join(s) <==> exists i :: 0 <= i < |s| && ':' in s[i]
    decreases |s|
  {
    if |s| > 1 {
      var front := s[..|s| - 1];
      ColonInJoin(front);
      assert forall i :: 0 <= i < |front| ==> front[i] == s[i];
      assert ':' in Join(s) <==> ':' in Join(front) || ':' in s[|s| - 1];
    }
  }

  lemma {:induction false} LexPrefix(a: string, b: string)
    requires a <= b
    ensures LexLe(a, b)
    decreases |a|
  {
    if a != "" {
      LexPrefix(a[1..], b[1..]);
    }
  }

  /** Of two sorted strings the later, without a port, is not the address of the earlier with one. */
  lemma NotItsAddress(s: seq<string>, i: nat)
    requires Sorted(s) && i < |s| - 1 && ':' in s[i] && ':' !in s[|s| - 1]
    ensures AddressOf(s[i]) != AddressOf(s[|s| - 1])
  {
    var x := s[|s| - 1];
    AddressPrefix(s[i]);
    if AddressOf(s[i]) == x {
      LexPrefix(x, s[i]);
      LexAntisymmetric(x, s[i]);
    }
  }

  /** Two or more sorted strings never name just the address of their joined key. */
  lemma JoinedAddressDiffers(s: seq<string>)
    requires Sorted(s) && |s| >= 2
    ensures Addresses(s) != {AddressOf(Join(s))}
  {
    var n := |s| - 1;
    var front, x := Join(s[..n]) + "|", s[n];
    assert Join(s) == front + x;
    assert x in s && AddressOf(x) in Addresses(s);
    AddressOfConcat(front, x);
    AddressPrefix(x);
    if ':' !in x && ':' in front {
      ColonInJoin(s[..n]);
      var i :| 0 <= i < n && ':' in s[..n][i];
      assert s[i] in s && AddressOf(s[i]) in Addresses(s);
      NotItsAddress(s, i);
    }
  }

  /** Every request with two or more strings has the key of the lone string that spells it, which names another
      selection. */
  lemma SpelledOutCollides(md: Metadata)
    requires md.Subset? && |Strings(md.items)| >= 2
    ensures var lone := Subset([Str(Key(md))]);
            Key(lone) == Key(md) && SelectionOf(lone) != SelectionOf(md)
  {
    var strings := Strings(md.items);
    KeyOfStrings(md);
    SortSorted(strings);
    SortLength(strings);
    JoinedAddressDiffers(Sort(strings));
    SortedAddresses(strings);
    OneItem(Str(Key(md)));
    LoneString(Subset([Str(Key(md))]), Key(md));
  }

  lemma {:induction false} InsertLength(s: seq<string>, x: string)
    ensures |Insert(s, x)| == |s| + 1
    decreases |s|
  {
    if s != [] && !LexLe(s[|s| - 1], x) {
      InsertLength(s[..|s| - 1], x);
    }
  }

  lemma {:induction false} SortLength(s: seq<string>)
    ensures |Sort(s)| == |s|
    decreases |s|
  {
    if s != [] {
      SortLength(s[..|s| - 1]);
      InsertLength(Sort(s[..|s| - 1]), s[|s| - 1]);
    }
  }

  /** Some bar of the string has what comes after it no smaller than what comes before. */
  predicate SplitsInOrder(x: string) {
    exists k :: 0 <= k < |x| && x[k] == '|' && LexLe(x[..k], x[k + 1..])
  }

  /** One string that is neither empty nor a sentinel and does not split in order at a bar. */
  predicate Unmistakable(md: Metadata) {
    && md.Subset? && |Strings(md.items)| == 1
    && var x := Strings(md.items)[0]; x != "" && x != DEFAULT_KEY && x != EMPTY_KEY && !SplitsInOrder(x)
  }

  ghost predicate Collides(md: Metadata, other: Metadata) {
    Key(other) == Key(md) && SelectionOf(other) != SelectionOf(md)
  }

  lemma JoinInOrder(s: seq<string>)
    requires Sorted(s) && |s| >= 2
    ensures SplitsInOrder(Join(s))
  {
    hide Join, LexLe;
    var rest := s[1..];
    assert s == [s[0]] + rest && [] + [s[0]] == [s[0]];
    JoinSnoc([], s[0]);
    JoinConcat([s[0]], rest);
    StartsJoin(rest);
    LexPrefix(s[1], Join(rest));
    LexTransitive(s[0], s[1], Join(rest));
    var x, k := Join(s), |s[0]|;
    assert x == s[0] + "|" + Join(rest);
    assert x[k] == '|' && x[..k] == s[0] && x[k + 1..] == Join(rest);
  }

  lemma {:induction false} StartsJoin(s: seq<string>)
    requires s != []
    ensures s[0] <= Join(s)
    decreases |s|
  {
    if |s| > 1 {
      StartsJoin(s[..|s| - 1]);
    }
  }

  lemma SplitInOrderCollides(md: Metadata)
    requires md.Subset? && |Strings(md.items)| == 1 && SplitsInOrder(Strings(md.items)[0])
    ensures exists other :: Collides(md, other)
  {
    hide LexLe, Strings, Collides;
    var x := Strings(md.items)[0];
    var k :| 0 <= k < |x| && x[k] == '|' && LexLe(x[..k], x[k + 1..]);
    Rejoined(x, k);
    PairCollides(md, x[..k], x[k + 1..]);
  }

  lemma Rejoined(x: string, k: nat)
    requires k < |x| && x[k] == '|'
    ensures x[..k] + "|" + x[k + 1..] == x
  {
  }

  /** Two strings in order, and the lone string that joins them. */
  lemma PairCollides(md: Metadata, a: string, b: string)
    requires md.Subset? && Strings(md.items) == [a + "|" + b] && LexLe(a, b)
    ensures Collides(md, Subset(ItemsOf([a, b])))
  {
    hide Join, Sort, LexLe, Strings, ItemsOf, AddressOf, Addresses, Key;
    var pair, x := [a, b], a + "|" + b;
    JoinSnoc([a], b);
    JoinSnoc([], a);
    assert [] + [a] == [a] && [a] + [b] == pair;
    StringsOfItems(pair);
    SortSortedIs(pair);
    LoneString(md, x);
    KeyOfStrings(Subset(ItemsOf(pair)));
    JoinedAddressDiffers(pair);
  }

  lemma EmptyStringCollides(md: Metadata)
    requires md.Subset? && Strings(md.items) == [""]
    ensures Collides(md, Subset([Other, Other]))
  {
    var two := [Other, Other];
    assert two[..1] == [Other];
    OneItem(Other);
    assert Strings(two) == [];
    assert Sort([]) == [] && Join([]) == "" && Addresses([]) == {};
    LoneString(md, "");
  }

  lemma UnmistakableIsSafe(md: Metadata, other: Metadata)
    requires Unmistakable(md) && Key(other) == Key(md)
    ensures SelectionOf(other) == SelectionOf(md)
  {
    var x := Strings(md.items)[0];
    LoneString(md, x);
    if other.Subset? && other.items != [] {
      var t := Strings(other.items);
      if t == [] {
        NoStringsKey(other);
      } else {
        KeyOfStrings(other);
        SortLength(t);
        SortSorted(t);
        if |t| == 1 {
          SortOne(t[0]);
          assert t == [t[0]];
        } else {
          JoinInOrder(Sort(t));
        }
      }
    }
  }

  lemma MistakableCollides(md: Metadata)
    requires !Unmistakable(md)
    ensures exists other :: Collides(md, other)
  {
    SentinelsBarFree();
    if !md.Subset? {
      OneItem(Other);
      assert Collides(md, Subset([Other]));
    } else if md.items == [] {
      OneItem(Str(EMPTY_KEY));
      LoneString(Subset([Str(EMPTY_KEY)]), EMPTY_KEY);
      assert Addresses([]) == {};
      assert Collides(md, Subset([Str(EMPTY_KEY)]));
    } else if |Strings(md.items)| >= 2 {
      SpelledOutCollides(md);
      assert Collides(md, Subset([Str(Key(md))]));
    } else if Strings(md.items) == [""] {
      EmptyStringCollides(md);
    } else if |Strings(md.items)| == 1 && SplitsInOrder(Strings(md.items)[0]) {
      SplitInOrderCollides(md);
    } else {
      NotPlainDiffers(md);
      assert Collides(md, Lookalike(md));
    }
  }

  /** For every request, against every request: no request of another selection has its key if and only if it has one
      string, neither empty nor a sentinel, that does not split in order at a bar. */
  lemma KeyDecidesIff(md: Metadata)
    ensures (forall other :: Key(other) == Key(md) ==> SelectionOf(other) == SelectionOf(md)) <==> Unmistakable(md)
  {
    hide Key, SelectionOf, Unmistakable;
    if Unmistakable(md) {
      forall other | Key(other) == Key(md)
        ensures SelectionOf(other) == SelectionOf(md)
      {
        UnmistakableIsSafe(md, other);
      }
    } else {
      MistakableCollides(md);
      var other :| Collides(md, other);
      assert Key(other) == Key(md);
    }
  }

  /** Two addresses, and the string that spells their key. */
  lemma BarsCollide()
    ensures Collides(Subset([Str("a"), Str("b")]), Subset([Str("a|b")]))
  {
    var pair, lone := Subset([Str("a"), Str("b")]), Subset([Str("a|b")]);
    assert "a" + "|" + "b" == "a|b";
    StringsOfItems(["a|b"]);
    assert ItemsOf(["a|b"]) == lone.items && ItemsOf(["a", "b"]) == pair.items;
    PairCollides(lone, "a", "b");
  }
}
