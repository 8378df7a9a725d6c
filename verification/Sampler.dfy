// Stratified sampling of training data (randomSample in sidecars/latencypredictorasync/training.go), with the shares
// computed exactly.
module Sampler {
  datatype Entry = Entry(actualTTFT: real, actualTPOT: real, id: nat)

  datatype Kind = Ttft | Tpot | Other

  function KindOf(e: Entry): Kind {
    if e.actualTTFT > 0.0 then Ttft else if e.actualTPOT > 0.0 then Tpot else Other
  }

  // ---- Shares ----

  /** x / total * maxSize, truncated toward zero. */
  function Share(x: nat, total: nat, maxSize: int): int
    requires total > 0
  {
    if maxSize >= 0 then x * maxSize / total else -(x * -maxSize / total)
  }

  datatype Sizes = Sizes(ttft: int, tpot: int, other: int) {
    function Total(): int { ttft + tpot + other }
  }

  /** The truncated shares, adjusted to sum to `maxSize`: up at the largest group, down at the largest sample. */
  function SampleSizes(a: nat, b: nat, c: nat, maxSize: int): (r: Sizes)
    requires a + b + c > 0
    ensures r.Total() == maxSize
  {
    var t := a + b + c;
    var s := Sizes(Share(a, t, maxSize), Share(b, t, maxSize), Share(c, t, maxSize));
    var off := maxSize - s.Total();
    if off > 0 then
      if a >= b && a >= c then s.(ttft := s.ttft + off)
      else if b >= c then s.(tpot := s.tpot + off)
      else s.(other := s.other + off)
    else if off < 0 then
      if s.ttft >= s.tpot && s.ttft >= s.other then s.(ttft := s.ttft + off)
      else if s.tpot >= s.other then s.(tpot := s.tpot + off)
      else s.(other := s.other + off)
    else s
  }

  function Clamp(size: int, available: nat): nat {
    if size <= 0 then 0 else if size < available then size else available
  }

  /** What a share leaves out is what the missing places cost, rounded up. */
  lemma LeftOut(x: nat, t: nat, k: nat)
    requires 0 < k <= t && x <= t
    ensures var out := x - Share(x, t, t - k); x * k <= t * out < x * k + t
  {
    var m := t - k;
    var f := x * m / t;
    DivBounds(x * m, t);
    assert x * m == x * t - x * k;
    assert t * (x - f) == t * x - t * f;
  }

  lemma DivBounds(n: nat, t: nat)
    requires t > 0
    ensures t * (n / t) <= n < t * (n / t) + t
  {
  }

  lemma MulLess(t: nat, x: int, y: int)
    requires t * x < t * y
    ensures x < y
  {
    if x >= y {
      MulMono(t, y, x);
    }
  }

  lemma MulMono(t: nat, x: int, y: int)
    requires x <= y
    ensures t * x <= t * y
  {
    assert t * (y - x) >= 0;
    assert t * (y - x) == t * y - t * x;
  }

  /** The shares never exceed the size asked for and miss it by two at most, so the excess branch is never taken. */
  lemma ShortByTwoAtMost(a: nat, b: nat, c: nat, maxSize: nat)
    requires a + b + c > maxSize
    ensures var t := a + b + c;
            maxSize - 2 <= Share(a, t, maxSize) + Share(b, t, maxSize) + Share(c, t, maxSize) <= maxSize
  {
    var t := a + b + c;
    var k := t - maxSize;
    LeftOut(a, t, k);
    LeftOut(b, t, k);
    LeftOut(c, t, k);
    OutsBetween(a, b, c, t, k, a - Share(a, t, maxSize), b - Share(b, t, maxSize), c - Share(c, t, maxSize));
  }

  lemma OutsBetween(a: nat, b: nat, c: nat, t: nat, k: nat, x: int, y: int, z: int)
    requires t == a + b + c > 0
    requires a * k <= t * x < a * k + t && b * k <= t * y < b * k + t && c * k <= t * z < c * k + t
    ensures k <= x + y + z <= k + 2
  {
    Distribute(a, b, c, k);
    Distribute(x, y, z, t);
    var out := x + y + z;
    assert t * x == x * t && t * y == y * t && t * z == z * t && t * out == out * t;
    assert t * (k - 1) == t * k - t && t * (k + 3) == t * k + 3 * t;
    MulLess(t, k - 1, out);
    MulLess(t, out, k + 3);
  }

  lemma Distribute(x: int, y: int, z: int, k: int)
    ensures x * k + y * k + z * k == (x + y + z) * k
  {
  }

  /** The share of the largest group, with what the others are short of, fits in it, save in one case. */
  lemma LargestFits(l: nat, x: nat, y: nat, maxSize: nat)
    requires l + x + y > maxSize && l >= x && l >= y
    ensures var t := l + x + y;
            var size := maxSize - Share(x, t, maxSize) - Share(y, t, maxSize);
            if maxSize == t - 1 && x > 0 && y > 0 then size == l + 1 else size <= l
  {
    var t := l + x + y;
    var k := t - maxSize;
    LeftOut(l, t, k);
    LeftOut(x, t, k);
    LeftOut(y, t, k);
    ShortByTwoAtMost(l, x, y, maxSize);
    var outL, outX, outY := l - Share(l, t, maxSize), x - Share(x, t, maxSize), y - Share(y, t, maxSize);
    OneOut(l, l, t, k, outL, outL);
    OneOut(l, x, t, k, outL, outX);
    OneOut(l, y, t, k, outL, outY);
    assert maxSize - Share(x, t, maxSize) - Share(y, t, maxSize) - l == outX + outY - k;
  }

  /** If the largest group leaves out at most one, so does every group, and none if it is empty. */
  lemma OneOut(l: nat, x: nat, t: nat, k: nat, outL: int, outX: int)
    requires 0 < k <= t && x <= l <= t && t > 0
    requires l * k <= t * outL < l * k + t && x * k <= t * outX < x * k + t
    ensures l > 0 ==> outL >= 1
    ensures x == 0 ==> outX == 0
    ensures x > 0 ==> outX >= 1
    ensures outL <= 1 ==> outX <= 1
    ensures k == 1 ==> outX <= 1
  {
    if l > 0 {
      assert l * k > 0;
      MulLess(t, 0, outL);
    }
    if x > 0 {
      assert x * k > 0;
      MulLess(t, 0, outX);
    } else {
      assert t * 1 == t && t * -1 == 0 - t;
      MulLess(t, outX, 1);
      MulLess(t, -1, outX);
    }
    if outL <= 1 {
      MulMono(t, outL, 1);
      MulMono(k, x, l);
      assert x * k <= l * k <= t && t * 2 == t + t;
      MulLess(t, outX, 2);
    }
    if k == 1 {
      assert x * k == x && t * 2 == t + t;
      MulLess(t, outX, 2);
    }
  }

  /** The sizes the groups really contribute. */
  function Taken(a: nat, b: nat, c: nat, maxSize: int): (nat, nat, nat)
    requires a + b + c > 0
  {
    var s := SampleSizes(a, b, c, maxSize);
    (Clamp(s.ttft, a), Clamp(s.tpot, b), Clamp(s.other, c))
  }

  lemma ShareFits(x: nat, t: nat, maxSize: nat)
    requires maxSize < t && x <= t
    ensures 0 <= Share(x, t, maxSize) <= x
  {
    LeftOut(x, t, t - maxSize);
    var out := x - Share(x, t, maxSize);
    assert x * (t - maxSize) >= 0;
    if out < 0 {
      MulMono(t, out, -1);
    }
    assert 0 <= out;
    ShareNonNegative(x, t, maxSize);
  }

  lemma ShareNonNegative(x: nat, t: nat, maxSize: nat)
    requires t > 0
    ensures Share(x, t, maxSize) >= 0
  {
    assert x * maxSize >= 0;
  }

  /** The group that is topped up: the first of the largest. */
  function Largest(a: nat, b: nat, c: nat): Kind {
    if a >= b && a >= c then Ttft else if b >= c then Tpot else Other
  }

  /** One place is lost exactly when all but one entry are asked for and no group is empty. */
  predicate OneLost(a: nat, b: nat, c: nat, maxSize: int) { maxSize == a + b + c - 1 && a > 0 && b > 0 && c > 0 }

  /** Every group gives its share, and only the largest gives more; together they give `maxSize`, or one less in the
      one case. */
  lemma TakenShares(a: nat, b: nat, c: nat, maxSize: nat)
    requires a + b + c > maxSize
    ensures var t := a + b + c;
            var (x, y, z) := Taken(a, b, c, maxSize);
            && x >= Share(a, t, maxSize) && (Largest(a, b, c) != Ttft ==> x == Share(a, t, maxSize))
            && y >= Share(b, t, maxSize) && (Largest(a, b, c) != Tpot ==> y == Share(b, t, maxSize))
            && z >= Share(c, t, maxSize) && (Largest(a, b, c) != Other ==> z == Share(c, t, maxSize))
            && x + y + z == if OneLost(a, b, c, maxSize) then maxSize - 1 else maxSize
  {
    hide Share;
    var t := a + b + c;
    ShortByTwoAtMost(a, b, c, maxSize);
    ShareFits(a, t, maxSize);
    ShareFits(b, t, maxSize);
    ShareFits(c, t, maxSize);
    match Largest(a, b, c) {
      case Ttft => LargestFits(a, b, c, maxSize);
      case Tpot => LargestFits(b, a, c, maxSize);
      case Other => LargestFits(c, a, b, maxSize);
    }
  }

  lemma ShareNegative(x: nat, t: nat, maxSize: int)
    requires t > 0 && maxSize < 0
    ensures Share(x, t, maxSize) <= 0
  {
    assert x * -maxSize >= 0;
  }

  /** Asked for a negative number, nothing is taken. */
  lemma NothingTaken(a: nat, b: nat, c: nat, maxSize: int)
    requires a + b + c > 0 && maxSize < 0
    ensures Taken(a, b, c, maxSize) == (0, 0, 0)
  {
    var t := a + b + c;
    ShareNegative(a, t, maxSize);
    ShareNegative(b, t, maxSize);
    ShareNegative(c, t, maxSize);
    NegativeShares(a, b, c, maxSize);
  }

  lemma NegativeShares(a: nat, b: nat, c: nat, maxSize: int)
    requires a + b + c > 0 && maxSize < 0
    ensures var t := a + b + c; maxSize <= Share(a, t, maxSize) + Share(b, t, maxSize) + Share(c, t, maxSize)
  {
    var t, m := a + b + c, -maxSize;
    var x, y, z := a * m / t, b * m / t, c * m / t;
    DivBounds(a * m, t);
    DivBounds(b * m, t);
    DivBounds(c * m, t);
    assert a * m + b * m + c * m == t * m;
    assert t * x + t * y + t * z == t * (x + y + z);
    assert t * (m + 1) == t * m + t;
    MulLess(t, x + y + z, m + 1);
  }

  // ---- Groups and samples ----

  function Group(entries: seq<Entry>, k: Kind): seq<Entry> {
    if entries == [] then []
    else
      var last := entries[|entries| - 1];
      Group(entries[..|entries| - 1], k) + if KindOf(last) == k then [last] else []
  }

  predicate AllOf(s: seq<Entry>, k: Kind) { forall e :: e in s ==> KindOf(e) == k }

  lemma {:induction false} GroupIsPure(entries: seq<Entry>, k: Kind)
    ensures AllOf(Group(entries, k), k)
    decreases |entries|
  {
    if entries != [] {
      GroupIsPure(entries[..|entries| - 1], k);
    }
  }

  lemma {:induction false} GroupOfPure(s: seq<Entry>, k: Kind, j: Kind)
    requires AllOf(s, k)
    ensures Group(s, j) == if j == k then s else []
    decreases |s|
  {
    if s != [] {
      GroupOfPure(s[..|s| - 1], k, j);
      assert s == s[..|s| - 1] + [s[|s| - 1]] && s[|s| - 1] in s;
    }
  }

  lemma {:induction false} GroupConcat(s: seq<Entry>, t: seq<Entry>, k: Kind)
    ensures Group(s + t, k) == Group(s, k) + Group(t, k)
    decreases |t|
  {
    if t == [] {
      assert s + t == s;
    } else {
      GroupConcat(s, t[..|t| - 1], k);
      assert (s + t)[..|s + t| - 1] == s + t[..|t| - 1];
    }
  }

  /** A group has the entries of its kind, as often. */
  lemma {:induction false} GroupCount(entries: seq<Entry>, k: Kind, e: Entry)
    ensures multiset(Group(entries, k))[e] == if KindOf(e) == k then multiset(entries)[e] else 0
    decreases |entries|
  {
    if entries != [] {
      var front, last := entries[..|entries| - 1], entries[|entries| - 1];
      GroupCount(front, k, e);
      assert entries == front + [last];
      assert multiset(Group(front, k) + [last])[e] == multiset(Group(front, k))[e] + multiset{last}[e];
    }
  }

  lemma {:induction false} GroupSizes(entries: seq<Entry>)
    ensures |entries| == |Group(entries, Ttft)| + |Group(entries, Tpot)| + |Group(entries, Other)|
    decreases |entries|
  {
    if entries != [] {
      GroupSizes(entries[..|entries| - 1]);
    }
  }

  /** `r` is drawn from `s` without replacement. */
  predicate DrawnFrom(r: seq<Entry>, s: seq<Entry>) { multiset(r) <= multiset(s) }

  lemma DrawnPure(r: seq<Entry>, s: seq<Entry>, k: Kind)
    requires DrawnFrom(r, s) && AllOf(s, k)
    ensures AllOf(r, k)
  {
    forall e | e in r
      ensures e in s
    {
      assert e in multiset(r) && e in multiset(s);
    }
  }

  method Shuffle(a: array<Entry>)
    modifies a
    ensures multiset(a[..]) == multiset(old(a[..]))
  {
    var i := a.Length - 1;
    while i > 0
      invariant multiset(a[..]) == multiset(old(a[..]))
    {
      var j :| 0 <= j <= i;
      a[i], a[j] := a[j], a[i];
      i := i - 1;
    }
  }

  lemma PrefixDrawn(s: seq<Entry>, n: nat)
    requires n <= |s|
    ensures DrawnFrom(s[..n], s)
  {
    assert s == s[..n] + s[n..];
  }

  method SampleFromSlice(entries: seq<Entry>, sampleSize: nat) returns (r: seq<Entry>)
    ensures DrawnFrom(r, entries) && |r| == if |entries| <= sampleSize then |entries| else sampleSize
  {
    if |entries| <= sampleSize {
      return entries;
    }
    var sample := new Entry[|entries|](i requires 0 <= i < |entries| => entries[i]);
    assert sample[..] == entries;
    Shuffle(sample);
    PrefixDrawn(sample[..], sampleSize);
    r := sample[..sampleSize];
    assert r == sample[..][..sampleSize];
  }

  /** A sample of the group, if it is to give any. */
  method SampleGroup(group: seq<Entry>, size: int) returns (r: seq<Entry>)
    ensures DrawnFrom(r, group) && |r| == Clamp(size, |group|)
  {
    if size > 0 && |group| > 0 {
      r := SampleFromSlice(group, if size < |group| then size else |group|);
    } else {
      r := [];
    }
  }

  /** How many of each kind the sample has. */
  ghost predicate Stratified(entries: seq<Entry>, r: seq<Entry>, maxSize: int)
    requires entries != []
  {
    var a, b, c := |Group(entries, Ttft)|, |Group(entries, Tpot)|, |Group(entries, Other)|;
    a + b + c == |entries| && (|Group(r, Ttft)|, |Group(r, Tpot)|, |Group(r, Other)|) == Taken(a, b, c, maxSize)
  }

  /** The size of the sample. */
  function SampleSize(entries: seq<Entry>, maxSize: int): int {
    if maxSize < 0 then 0
    else if OneLost(|Group(entries, Ttft)|, |Group(entries, Tpot)|, |Group(entries, Other)|, maxSize) then maxSize - 1
    else maxSize
  }

  lemma TakenTotal(a: nat, b: nat, c: nat, maxSize: int)
    requires a + b + c > maxSize && a + b + c > 0
    ensures var (x, y, z) := Taken(a, b, c, maxSize);
            x + y + z == if maxSize < 0 then 0 else if OneLost(a, b, c, maxSize) then maxSize - 1 else maxSize
  {
    if maxSize < 0 {
      NothingTaken(a, b, c, maxSize);
    } else {
      TakenShares(a, b, c, maxSize);
    }
  }

  lemma DrawnTogether(entries: seq<Entry>, x: seq<Entry>, y: seq<Entry>, z: seq<Entry>)
    requires DrawnFrom(x, Group(entries, Ttft)) && DrawnFrom(y, Group(entries, Tpot))
             && DrawnFrom(z, Group(entries, Other))
    ensures DrawnFrom(x + y + z, entries)
  {
    hide Group;
    forall e
      ensures multiset(x + y + z)[e] <= multiset(entries)[e]
    {
      GroupCount(entries, Ttft, e);
      GroupCount(entries, Tpot, e);
      GroupCount(entries, Other, e);
      assert multiset(x + y + z) == multiset(x) + multiset(y) + multiset(z);
    }
  }

  lemma CombinedGroup(x: seq<Entry>, y: seq<Entry>, z: seq<Entry>, k: Kind)
    requires AllOf(x, Ttft) && AllOf(y, Tpot) && AllOf(z, Other)
    ensures Group(x + y + z, k) == match k case Ttft => x case Tpot => y case Other => z
  {
    hide Group, AllOf;
    GroupConcat(x + y, z, k);
    GroupConcat(x, y, k);
    GroupOfPure(x, Ttft, k);
    GroupOfPure(y, Tpot, k);
    GroupOfPure(z, Other, k);
    match k {
      case Ttft => Alone(x);
      case Tpot => Alone(y);
      case Other => Alone(z);
    }
  }

  lemma Alone(s: seq<Entry>)
    ensures s + [] + [] == s && [] + s + [] == s && [] + [] + s == s
  {
  }

  lemma Combined(entries: seq<Entry>, x: seq<Entry>, y: seq<Entry>, z: seq<Entry>)
    requires DrawnFrom(x, Group(entries, Ttft)) && DrawnFrom(y, Group(entries, Tpot))
             && DrawnFrom(z, Group(entries, Other))
    ensures DrawnFrom(x + y + z, entries)
    ensures Group(x + y + z, Ttft) == x && Group(x + y + z, Tpot) == y && Group(x + y + z, Other) == z
  {
    DrawnTogether(entries, x, y, z);
    GroupIsPure(entries, Ttft);
    GroupIsPure(entries, Tpot);
    GroupIsPure(entries, Other);
    DrawnPure(x, Group(entries, Ttft), Ttft);
    DrawnPure(y, Group(entries, Tpot), Tpot);
    DrawnPure(z, Group(entries, Other), Other);
    CombinedGroup(x, y, z, Ttft);
    CombinedGroup(x, y, z, Tpot);
    CombinedGroup(x, y, z, Other);
  }

  method Split(entries: seq<Entry>) returns (ttft: seq<Entry>, tpot: seq<Entry>, other: seq<Entry>)
    ensures ttft == Group(entries, Ttft) && tpot == Group(entries, Tpot) && other == Group(entries, Other)
    ensures forall e :: e in ttft ==> e.actualTTFT > 0.0
    ensures forall e :: e in tpot ==> e.actualTTFT <= 0.0 && e.actualTPOT > 0.0
    ensures forall e :: e in other ==> e.actualTTFT <= 0.0 && e.actualTPOT <= 0.0
  {
    GroupIsPure(entries, Ttft);
    GroupIsPure(entries, Tpot);
    GroupIsPure(entries, Other);
    ttft, tpot, other := [], [], [];
    for i := 0 to |entries|
      invariant ttft == Group(entries[..i], Ttft) && tpot == Group(entries[..i], Tpot)
                  && other == Group(entries[..i], Other)
    {
      assert entries[..i + 1][..i] == entries[..i];
      var hasTTFT, hasTPOT := entries[i].actualTTFT > 0.0, entries[i].actualTPOT > 0.0;
      if hasTTFT {
        ttft := ttft + [entries[i]];
      } else if hasTPOT {
        tpot := tpot + [entries[i]];
      } else {
        other := other + [entries[i]];
      }
    }
    assert entries[..|entries|] == entries;
  }

  /** The adjusted sizes, computed in place. */
  method ComputeSizes(a: nat, b: nat, c: nat, maxSize: int) returns (x: int, y: int, z: int)
    requires a + b + c > 0
    ensures Sizes(x, y, z) == SampleSizes(a, b, c, maxSize)
  {
    var t := a + b + c;
    x, y, z := Share(a, t, maxSize), Share(b, t, maxSize), Share(c, t, maxSize);
    var totalSampled := x + y + z;
    if totalSampled < maxSize {
      var remaining := maxSize - totalSampled;
      if a >= b && a >= c {
        x := x + remaining;
      } else if b >= c {
        y := y + remaining;
      } else {
        z := z + remaining;
      }
    } else if totalSampled > maxSize {
      var excess := totalSampled - maxSize;
      if x >= y && x >= z {
        x := x - excess;
      } else if y >= z {
        y := y - excess;
      } else {
        z := z - excess;
      }
    }
  }

  method RandomSample(entries: seq<Entry>, maxSize: int) returns (r: seq<Entry>)
    ensures DrawnFrom(r, entries)
    ensures |entries| <= maxSize || entries == [] ==> r == entries
    ensures |entries| > maxSize && entries != [] ==>
              Stratified(entries, r, maxSize) && |r| == SampleSize(entries, maxSize)
  {
    if |entries| <= maxSize {
      return entries;
    }
    var ttftEntries, tpotEntries, otherEntries := Split(entries);
    if |entries| == 0 {
      return entries;
    }
    GroupSizes(entries);
    var ttftSampleSize, tpotSampleSize, otherSampleSize :=
      ComputeSizes(|ttftEntries|, |tpotEntries|, |otherEntries|, maxSize);
    var ttftSample := SampleGroup(ttftEntries, ttftSampleSize);
    var tpotSample := SampleGroup(tpotEntries, tpotSampleSize);
    var otherSample := SampleGroup(otherEntries, otherSampleSize);
    r := ttftSample + tpotSample + otherSample;
    Combined(entries, ttftSample, tpotSample, otherSample);
    GroupSizes(r);
    TakenTotal(|ttftEntries|, |tpotEntries|, |otherEntries|, maxSize);
  }

  /** Two, one and one entries, three asked for, two given. */
  lemma TwoOneOne()
    ensures Taken(2, 1, 1, 3) == (2, 0, 0)
  {
  }
}
