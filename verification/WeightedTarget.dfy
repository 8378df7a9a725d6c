// The weighted choice of a rewrite target (selectWeightedModel in pkg/epp/requestcontrol/director.go).
module WeightedTarget {
  import opened Wrappers

  datatype Target = Target(modelRewrite: string, weight: int)

  const MAX_INT32 := 0x7fff_ffff

  /** 32-bit two's complement wrap-around. */
  function Int32(x: int): (r: int)
    ensures -MAX_INT32 - 1 <= r <= MAX_INT32
    ensures 0 <= x <= MAX_INT32 ==> r == x
  {
    (x + 0x8000_0000) % 0x1_0000_0000 - 0x8000_0000
  }

  /** The accumulated weight of the first `n` models, as an int32. */
  function Weight32(models: seq<Target>, n: nat): int
    requires n <= |models|
  {
    if n == 0 then 0 else Int32(Weight32(models, n - 1) + models[n - 1].weight)
  }

  /** The same without wrap-around. */
  function Sum(models: seq<Target>, n: nat): int
    requires n <= |models|
  {
    if n == 0 then 0 else Sum(models, n - 1) + models[n - 1].weight
  }

  datatype Pick = At(index: nat) | Fallback

  function PickFrom(models: seq<Target>, draw: int, i: nat): (r: Pick)
    requires i <= |models|
    ensures r.At? ==> i <= r.index < |models|
    decreases |models| - i
  {
    if i == |models| then Fallback
    else if draw < Weight32(models, i + 1) then At(i)
    else PickFrom(models, draw, i + 1)
  }

  datatype Outcome = Chosen(model: string) | Panic

  /** What is returned for a given source of random numbers below a bound. */
  function Selected(models: seq<Target>, intn: int -> int): Outcome
    requires forall n :: n > 0 ==> 0 <= intn(n) < n
  {
    var total := Weight32(models, |models|);
    if models == [] then Chosen("")
    else if total == 0 then Chosen(models[intn(|models|)].modelRewrite)
    else if total < 0 then Panic
    else
      match PickFrom(models, intn(total), 0)
      case At(i) => Chosen(models[i].modelRewrite)
      case Fallback => Chosen(models[|models| - 1].modelRewrite)
  }

  method SelectWeightedModel(models: seq<Target>, intn: int -> int) returns (r: Outcome)
    requires forall n :: n > 0 ==> 0 <= intn(n) < n
    ensures r == Selected(models, intn)
  {
    if |models| == 0 {
      return Chosen("");
    }
    var totalWeight := 0;
    for i := 0 to |models|
      invariant totalWeight == Weight32(models, i)
    {
      totalWeight := Int32(totalWeight + models[i].weight);
    }
    if totalWeight == 0 {
      return Chosen(models[intn(|models|)].modelRewrite);
    }
    if totalWeight < 0 {
      return Panic;
    }
    var randomNum := intn(totalWeight);
    var currentWeight := 0;
    for i := 0 to |models|
      invariant currentWeight == Weight32(models, i)
      invariant PickFrom(models, randomNum, 0) == PickFrom(models, randomNum, i)
    {
      currentWeight := Int32(currentWeight + models[i].weight);
      if randomNum < currentWeight {
        return Chosen(models[i].modelRewrite);
      }
    }
    return Chosen(models[|models| - 1].modelRewrite);
  }

  // ---- The distribution ----

  predicate NonNegative(models: seq<Target>) { forall i :: 0 <= i < |models| ==> models[i].weight >= 0 }

  lemma {:induction false} SumGrows(models: seq<Target>, m: nat, n: nat)
    requires NonNegative(models) && m <= n <= |models|
    ensures 0 <= Sum(models, m) <= Sum(models, n)
    decreases n
  {
    if m < n {
      SumGrows(models, m, n - 1);
    } else if n > 0 {
      SumGrows(models, n - 1, n - 1);
    }
  }

  lemma {:induction false} NoWrap(models: seq<Target>, n: nat)
    requires NonNegative(models) && n <= |models| && Sum(models, |models|) <= MAX_INT32
    ensures Weight32(models, n) == Sum(models, n)
  {
    if n > 0 {
      NoWrap(models, n - 1);
      SumGrows(models, n, |models|);
    }
  }

  /** The draws that end at or after `i` are split at the accumulated weights. */
  lemma {:induction false} PickSplits(models: seq<Target>, draw: int, i: nat, j: nat)
    requires NonNegative(models) && Sum(models, |models|) <= MAX_INT32
    requires i <= j < |models| && Sum(models, i) <= draw
    ensures PickFrom(models, draw, i) == At(j) <==> Sum(models, j) <= draw < Sum(models, j + 1)
    decreases |models| - i
  {
    NoWrap(models, i + 1);
    SumGrows(models, i + 1, j + 1);
    if draw >= Sum(models, i + 1) && i < j {
      PickSplits(models, draw, i + 1, j);
    } else {
      SumGrows(models, i + 1, if i < j then j else i + 1);
    }
  }

  lemma {:induction false} PickReaches(models: seq<Target>, draw: int, i: nat)
    requires NonNegative(models) && Sum(models, |models|) <= MAX_INT32
    requires i <= |models| && Sum(models, i) <= draw < Sum(models, |models|)
    ensures PickFrom(models, draw, i).At?
    decreases |models| - i
  {
    if i < |models| {
      NoWrap(models, i + 1);
      if draw >= Sum(models, i + 1) {
        PickReaches(models, draw, i + 1);
      }
    }
  }

  /** The draws below the total that select a target. */
  function DrawsFor(models: seq<Target>, i: nat): set<int> {
    set d: int | 0 <= d < Weight32(models, |models|) && PickFrom(models, d, 0) == At(i)
  }

  predicate Within(lo: int, d: int, hi: int) { lo <= d < hi }

  function Interval(lo: int, hi: int): set<int> {
    set d: int | lo <= d < hi && Within(lo, d, hi)
  }

  lemma {:induction false} IntervalSize(lo: int, hi: int)
    requires lo <= hi
    ensures |Interval(lo, hi)| == hi - lo
    decreases hi - lo
  {
    if lo < hi {
      IntervalSize(lo, hi - 1);
      assert Interval(lo, hi) == Interval(lo, hi - 1) + {hi - 1};
    }
  }

  predicate Fair(models: seq<Target>) {
    forall i :: 0 <= i < |models| ==> |DrawsFor(models, i)| == models[i].weight
  }

  lemma FairWhenItFits(models: seq<Target>)
    requires NonNegative(models) && Sum(models, |models|) <= MAX_INT32
    ensures Fair(models)
  {
    NoWrap(models, |models|);
    forall i: nat | i < |models|
      ensures |DrawsFor(models, i)| == models[i].weight
    {
      SumGrows(models, 0, i);
      SumGrows(models, i + 1, |models|);
      forall d: int | 0 <= d < Sum(models, |models|)
        ensures PickFrom(models, d, 0) == At(i) <==> Sum(models, i) <= d < Sum(models, i + 1)
      {
        PickSplits(models, d, 0, i);
      }
      assert DrawsFor(models, i) == Interval(Sum(models, i), Sum(models, i + 1));
      IntervalSize(Sum(models, i), Sum(models, i + 1));
    }
  }

  function DrawsBelow(models: seq<Target>, n: nat): set<int> {
    set d: int | 0 <= d < Weight32(models, |models|) && PickFrom(models, d, 0).At? && PickFrom(models, d, 0).index < n
  }

  lemma {:induction false} DrawsAddUp(models: seq<Target>, n: nat)
    requires Fair(models) && n <= |models|
    ensures |DrawsBelow(models, n)| == Sum(models, n)
  {
    hide PickFrom;
    if n > 0 {
      DrawsAddUp(models, n - 1);
      assert DrawsBelow(models, n) == DrawsBelow(models, n - 1) + DrawsFor(models, n - 1);
      assert DrawsBelow(models, n - 1) !! DrawsFor(models, n - 1);
    }
  }

  /** For non-negative weights: exactly Weight_i of the draws below the total select target i, for every target, if and
      only if the sum of the weights fits an int32. */
  lemma FairIffItFits(models: seq<Target>)
    requires NonNegative(models)
    ensures Fair(models) <==> Sum(models, |models|) <= MAX_INT32
  {
    if Sum(models, |models|) <= MAX_INT32 {
      FairWhenItFits(models);
    } else if Fair(models) {
      var total := Weight32(models, |models|);
      var top := if total < 0 then 0 else total;
      DrawsAddUp(models, |models|);
      IntervalSize(0, top);
      Subset(DrawsBelow(models, |models|), Interval(0, top));
    }
  }

  lemma {:induction false} Subset(a: set<int>, b: set<int>)
    requires a <= b
    ensures |a| <= |b|
  {
    assert b == a + (b - a);
    assert |b| == |a| + |b - a|;
  }

  /** Then some target is always chosen and the last resort is never used. */
  lemma FallbackUnreachable(models: seq<Target>, intn: int -> int)
    requires forall n :: n > 0 ==> 0 <= intn(n) < n
    requires NonNegative(models) && 0 < Sum(models, |models|) <= MAX_INT32
    ensures exists i: nat :: i < |models| && PickFrom(models, intn(Sum(models, |models|)), 0) == At(i)
                          && models[i].weight > 0 && Selected(models, intn) == Chosen(models[i].modelRewrite)
  {
    NoWrap(models, |models|);
    var draw := intn(Sum(models, |models|));
    PickReaches(models, draw, 0);
    var i := PickFrom(models, draw, 0).index;
    PickSplits(models, draw, 0, i);
  }

  // ---- Every total ----

  const TWO_TO_THE_32 := 0x1_0000_0000

  lemma WrapTwice(x: int, y: int)
    ensures Int32(Int32(x) + y) == Int32(x + y)
  {
    var q := (x + 0x8000_0000) / TWO_TO_THE_32;
    assert Int32(x) == x - q * TWO_TO_THE_32;
    WrapShift(x + y, q);
  }

  lemma WrapShift(x: int, q: int)
    ensures Int32(x - q * TWO_TO_THE_32) == Int32(x)
  {
    var n := x + 0x8000_0000;
    assert n == n / TWO_TO_THE_32 * TWO_TO_THE_32 + n % TWO_TO_THE_32;
    var m := n - q * TWO_TO_THE_32;
    assert m == (n / TWO_TO_THE_32 - q) * TWO_TO_THE_32 + n % TWO_TO_THE_32;
    DivUnique(m, n / TWO_TO_THE_32 - q, n % TWO_TO_THE_32);
  }

  lemma DivUnique(m: int, d: int, r: int)
    requires m == d * TWO_TO_THE_32 + r && 0 <= r < TWO_TO_THE_32
    ensures m % TWO_TO_THE_32 == r
  {
  }

  /** The accumulated total is the sum, wrapped once. */
  lemma {:induction false} TotalIsWrappedSum(models: seq<Target>, n: nat)
    requires n <= |models|
    ensures Weight32(models, n) == Int32(Sum(models, n))
  {
    if n > 0 {
      TotalIsWrappedSum(models, n - 1);
      WrapTwice(Sum(models, n - 1), models[n - 1].weight);
    }
  }

  /** How many draws there are, and which target a draw selects, when the code does not panic. */
  function Draws(models: seq<Target>): int {
    var total := Weight32(models, |models|);
    if total == 0 then |models| else total
  }

  function Picked(models: seq<Target>, draw: int): int
    requires models != []
  {
    if Weight32(models, |models|) == 0 then draw
    else match PickFrom(models, draw, 0) case At(i) => i case Fallback => |models| - 1
  }

  /** For every list of targets the code panics if and only if the wrapped total is negative, which is when the sum
      leaves a remainder of 2^31 or more modulo 2^32; it chooses uniformly when the remainder is zero, and otherwise
      by the accumulated weights. */
  lemma OutcomeByTotal(models: seq<Target>, intn: int -> int)
    requires forall n :: n > 0 ==> 0 <= intn(n) < n
    ensures models == [] ==> Selected(models, intn) == Chosen("")
    ensures models != [] ==> (Selected(models, intn).Panic? <==> Sum(models, |models|) % TWO_TO_THE_32 > MAX_INT32)
    ensures Sum(models, |models|) % TWO_TO_THE_32 == 0 <==> Weight32(models, |models|) == 0
    ensures models != [] && !Selected(models, intn).Panic? ==>
              && 0 <= Picked(models, intn(Draws(models))) < |models|
              && Selected(models, intn) == Chosen(models[Picked(models, intn(Draws(models)))].modelRewrite)
  {
    TotalIsWrappedSum(models, |models|);
    RemainderOf(Sum(models, |models|));
  }

  lemma RemainderOf(x: int)
    ensures x % TWO_TO_THE_32 > MAX_INT32 <==> Int32(x) < 0
    ensures x % TWO_TO_THE_32 == 0 <==> Int32(x) == 0
  {
    var d, r := x / TWO_TO_THE_32, x % TWO_TO_THE_32;
    WrapShift(x, d);
    assert Int32(r) == Int32(x);
  }

  function DrawsTo(models: seq<Target>, i: int): set<int>
    requires models != []
  {
    set d: int | 0 <= d < Draws(models) && Picked(models, d) == i
  }

  lemma InDrawsTo(models: seq<Target>, i: int, d: int)
    requires models != []
    ensures d in DrawsTo(models, i) <==> 0 <= d < Draws(models) && Picked(models, d) == i
  {
  }

  lemma InDrawsFor(models: seq<Target>, i: nat, d: int)
    ensures d in DrawsFor(models, i) <==> 0 <= d < Weight32(models, |models|) && PickFrom(models, d, 0) == At(i)
  {
  }

  lemma InInterval(lo: int, d: int, hi: int)
    ensures d in Interval(lo, hi) <==> lo <= d < hi
  {
    assert lo <= d < hi ==> Within(lo, d, hi);
  }

  /** No panic, and every target is drawn in proportion to its weight. */
  predicate Proportional(models: seq<Target>)
    requires models != []
  {
    && Weight32(models, |models|) >= 0
    && forall i :: 0 <= i < |models| ==>
         |DrawsTo(models, i)| * Sum(models, |models|) == models[i].weight * Draws(models)
  }

  /** The weights are non-negative int32 values. */
  predicate Weights(models: seq<Target>) {
    forall i :: 0 <= i < |models| ==> 0 <= models[i].weight <= MAX_INT32
  }

  predicate AllEqual(models: seq<Target>) {
    forall i :: 0 <= i < |models| ==> models[i].weight == models[0].weight
  }

  lemma ProportionalWhenItFits(models: seq<Target>)
    requires NonNegative(models) && 0 < Sum(models, |models|) <= MAX_INT32
    ensures Proportional(models)
  {
    NoWrap(models, |models|);
    FairWhenItFits(models);
    forall i | 0 <= i < |models|
      ensures DrawsTo(models, i) == DrawsFor(models, i)
    {
      forall d: int
        ensures d in DrawsTo(models, i) <==> d in DrawsFor(models, i)
      {
        InDrawsTo(models, i, d);
        InDrawsFor(models, i, d);
        if 0 <= d < Sum(models, |models|) {
          PickReaches(models, d, 0);
        }
      }
    }
  }

  lemma {:induction false} SumOfEqual(models: seq<Target>, n: nat)
    requires n <= |models| && |models| > 0 && AllEqual(models)
    ensures Sum(models, n) == n * models[0].weight
  {
    if n > 0 {
      SumOfEqual(models, n - 1);
    }
  }

  lemma UniformIff(models: seq<Target>)
    requires models != [] && Weight32(models, |models|) == 0
    ensures Proportional(models) <==> AllEqual(models)
  {
    forall i | 0 <= i < |models|
      ensures DrawsTo(models, i) == {i}
    {
      forall d: int
        ensures d in DrawsTo(models, i) <==> d == i
      {
        InDrawsTo(models, i, d);
      }
    }
    if AllEqual(models) {
      SumOfEqual(models, |models|);
    }
    if Proportional(models) {
      forall i | 0 <= i < |models|
        ensures models[i].weight == models[0].weight
      {
        assert |DrawsTo(models, i)| == 1 && |DrawsTo(models, 0)| == 1;
        SameProduct(|models|, models[i].weight, models[0].weight);
      }
    }
  }

  lemma {:induction false} LessTimes(n: nat, x: int, y: int)
    requires n > 0 && x < y
    ensures x * n < y * n
    decreases y - x
  {
    if x + 1 < y {
      LessTimes(n, x + 1, y);
    }
    assert (x + 1) * n == x * n + n;
  }

  lemma SameProduct(n: nat, x: int, y: int)
    requires n > 0 && x * n == y * n
    ensures x == y
  {
    if x < y {
      LessTimes(n, x, y);
    } else if y < x {
      LessTimes(n, y, x);
    }
  }

  lemma {:induction false} FirstWeight(models: seq<Target>, n: nat) returns (f: nat)
    requires NonNegative(models) && n <= |models| && Sum(models, n) > 0
    ensures f < n && models[f].weight > 0 && forall i :: 0 <= i < f ==> models[i].weight == 0
  {
    if Sum(models, n - 1) > 0 {
      f := FirstWeight(models, n - 1);
    } else {
      f := n - 1;
      forall i | 0 <= i < n - 1
        ensures models[i].weight == 0
      {
        SumGrows(models, i + 1, n - 1);
        SumGrows(models, 0, i);
      }
    }
  }

  lemma {:induction false} PickSkips(models: seq<Target>, draw: int, i: nat, f: nat)
    requires i <= f < |models| && draw >= 0 && forall j :: 0 <= j < f ==> models[j].weight == 0
    ensures PickFrom(models, draw, i) == PickFrom(models, draw, f)
    decreases f - i
  {
    if i < f {
      ZeroWeight(models, i + 1);
      PickSkips(models, draw, i + 1, f);
    }
  }

  lemma {:induction false} ZeroWeight(models: seq<Target>, n: nat)
    requires n <= |models| && forall j :: 0 <= j < n ==> models[j].weight == 0
    ensures Weight32(models, n) == 0 && Sum(models, n) == 0
  {
    if n > 0 {
      ZeroWeight(models, n - 1);
    }
  }

  /** The first target with a weight is selected by the draws below its weight, and by no others if more follow. */
  lemma FirstTargetDraws(models: seq<Target>, f: nat)
    requires Weights(models) && f < |models| - 1 && models[f].weight > 0 && Weight32(models, |models|) > 0
    requires forall i :: 0 <= i < f ==> models[i].weight == 0
    ensures var total := Weight32(models, |models|);
            DrawsTo(models, f) == Interval(0, if models[f].weight < total then models[f].weight else total)
  {
    ZeroWeight(models, f);
    var total := Weight32(models, |models|);
    var top := if models[f].weight < total then models[f].weight else total;
    forall d: int
      ensures d in DrawsTo(models, f) <==> d in Interval(0, top)
    {
      InDrawsTo(models, f, d);
      InInterval(0, d, top);
      if 0 <= d < total {
        PickSkips(models, d, 0, f);
      }
    }
  }

  lemma DisproportionateWhenWrapped(models: seq<Target>)
    requires Weights(models) && Sum(models, |models|) > MAX_INT32 && Weight32(models, |models|) > 0
    ensures !Proportional(models)
  {
    var sum, total := Sum(models, |models|), Weight32(models, |models|);
    var f := FirstWeight(models, |models|);
    ZeroWeight(models, f);
    assert f < |models| - 1;
    FirstTargetDraws(models, f);
    var w := models[f].weight;
    var drawn := if w < total then w else total;
    IntervalSize(0, drawn);
    if w < total {
      DifferentProduct(w, sum, total);
    } else {
      DifferentProduct(total, sum, w);
    }
    assert drawn * sum != w * total;
  }

  lemma DifferentProduct(n: int, x: int, y: int)
    requires n > 0 && x > y
    ensures n * x > n * y
  {
    assert n * (x - y) > 0;
  }

  /** For non-negative int32 weights with a positive sum: no panic, and every target drawn in proportion to its weight,
      if and only if the sum fits an int32, or it is a multiple of 2^32 and all weights are equal. */
  lemma ProportionalIff(models: seq<Target>)
    requires Weights(models) && Sum(models, |models|) > 0
    ensures Proportional(models)
       <==> Sum(models, |models|) <= MAX_INT32 || (Sum(models, |models|) % TWO_TO_THE_32 == 0 && AllEqual(models))
  {
    var sum := Sum(models, |models|);
    TotalIsWrappedSum(models, |models|);
    RemainderOf(sum);
    if sum <= MAX_INT32 {
      ProportionalWhenItFits(models);
    } else if Weight32(models, |models|) == 0 {
      UniformIff(models);
    } else if Weight32(models, |models|) > 0 {
      DisproportionateWhenWrapped(models);
    }
  }

  /** Weights whose sum wraps to one: the first target is always chosen. */
  lemma WrapsToOne(a: string, b: string, c: string)
    ensures var models := [Target(a, MAX_INT32), Target(b, MAX_INT32), Target(c, 3)];
            Weight32(models, 3) == 1 && Picked(models, 0) == 0 && !Proportional(models) && !Fair(models)
  {
    var models := [Target(a, MAX_INT32), Target(b, MAX_INT32), Target(c, 3)];
    assert models[0].weight == MAX_INT32 && models[1].weight == MAX_INT32 && models[2].weight == 3;
    assert Sum(models, 1) == Sum(models, 0) + models[0].weight == MAX_INT32;
    assert Sum(models, 2) == Sum(models, 1) + models[1].weight == 2 * MAX_INT32;
    assert Sum(models, 3) == Sum(models, 2) + models[2].weight == 2 * MAX_INT32 + 3;
    TotalIsWrappedSum(models, 1);
    TotalIsWrappedSum(models, 3);
    assert PickFrom(models, 0, 0) == At(0);
    ProportionalIff(models);
    FairIffItFits(models);
  }
}
