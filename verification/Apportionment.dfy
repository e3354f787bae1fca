/** The simulator's largest-remainder apportionment of orders to scenarios. */
module Apportionment {

  function Sum(xs: seq<int>): int {
    if xs == [] then 0 else Sum(xs[..|xs| - 1]) + xs[|xs| - 1]
  }

  /** n * w / W is the exact quota of weight w; its floor and remainder decide everything. */
  function FloorOf(n: nat, w: nat, total: int): nat
    requires total > 0
  {
    n * w / total
  }

  function RemainderOf(n: nat, w: nat, total: int): nat
    requires total > 0
  {
    n * w % total
  }

  /** A non-empty list of positive weights. */
  ghost predicate Weights(ws: seq<nat>) {
    ws != [] && forall i :: 0 <= i < |ws| ==> ws[i] > 0
  }

  lemma {:induction false} SumPositive(ws: seq<nat>)
    requires Weights(ws)
    ensures Sum(ws) > 0
  {
    if |ws| == 1 {
    } else {
      SumPositive(ws[..|ws| - 1]);
    }
  }

  function Remainders(n: nat, ws: seq<nat>, total: int): (rs: seq<nat>)
    requires total > 0
    ensures |rs| == |ws| && forall i :: 0 <= i < |ws| ==> rs[i] == RemainderOf(n, ws[i], total)
  {
    seq(|ws|, i requires 0 <= i < |ws| => RemainderOf(n, ws[i], total))
  }

  /** d_i = W * x_i - n * w_i: W times the deviation of count x_i from its quota. */
  function Deviation(n: nat, w: nat, total: int, x: int): int {
    total * x - n * w
  }

  function Deviations(n: nat, ws: seq<nat>, total: int, xs: seq<int>): (ds: seq<int>)
    requires |xs| == |ws|
    ensures |ds| == |ws| && forall i :: 0 <= i < |ws| ==> ds[i] == Deviation(n, ws[i], total, xs[i])
  {
    seq(|ws|, i requires 0 <= i < |ws| => Deviation(n, ws[i], total, xs[i]))
  }

  /** W * W times the sum of squared deviations from the quotas. */
  function Cost(n: nat, ws: seq<nat>, total: int, xs: seq<int>): int
    requires |xs| == |ws|
  {
    if xs == [] then 0
    else
      var k := |xs| - 1;
      var d := Deviation(n, ws[k], total, xs[k]);
      Cost(n, ws[..k], total, xs[..k]) + d * d
  }

  predicate HasExtra(n: nat, ws: seq<nat>, counts: seq<int>, i: int)
    requires 0 <= i < |ws| == |counts| && Sum(ws) > 0
  {
    counts[i] == FloorOf(n, ws[i], Sum(ws)) + 1
  }

  /** The outcome of the largest-remainder rule, up to the order among equal remainders: everyone gets
      the floor of the quota or one more, all of n is given out, and an extra goes to a scenario only
      if no scenario left without one has a larger remainder. */
  ghost predicate LargestRemainder(n: nat, ws: seq<nat>, counts: seq<int>) {
    && Weights(ws) && |counts| == |ws| && Sum(ws) > 0 && Sum(counts) == n
    && (forall i :: 0 <= i < |ws| ==>
          counts[i] == FloorOf(n, ws[i], Sum(ws)) || counts[i] == FloorOf(n, ws[i], Sum(ws)) + 1)
    && (forall i, j :: 0 <= i < |ws| && 0 <= j < |ws| && HasExtra(n, ws, counts, i) && !HasExtra(n, ws, counts, j)
          ==> RemainderOf(n, ws[j], Sum(ws)) <= RemainderOf(n, ws[i], Sum(ws)))
  }

  /** No two deviations are more than one order apart. */
  ghost predicate Tight(n: nat, ws: seq<nat>, total: int, xs: seq<int>) {
    |xs| == |ws| && forall i, j :: 0 <= i < |xs| && 0 <= j < |xs| ==>
      Deviation(n, ws[i], total, xs[i]) - Deviation(n, ws[j], total, xs[j]) <= total
  }

  lemma FloorAndRemainder(n: nat, w: nat, total: int)
    requires total > 0
    ensures n * w == total * FloorOf(n, w, total) + RemainderOf(n, w, total)
    ensures 0 <= RemainderOf(n, w, total) < total
  {
  }

  lemma DeviationOfCount(n: nat, w: nat, total: int, x: int)
    requires total > 0
    ensures x == FloorOf(n, w, total) ==> Deviation(n, w, total, x) == 0 - RemainderOf(n, w, total)
    ensures x == FloorOf(n, w, total) + 1 ==> Deviation(n, w, total, x) == total - RemainderOf(n, w, total)
  {
    FloorAndRemainder(n, w, total);
    if x == FloorOf(n, w, total) + 1 {
      assert total * x == total * FloorOf(n, w, total) + total;
    }
  }

  lemma LargestRemainderIsTight(n: nat, ws: seq<nat>, counts: seq<int>)
    requires LargestRemainder(n, ws, counts)
    ensures Tight(n, ws, Sum(ws), counts)
  {
    var total := Sum(ws);
    forall i, j | 0 <= i < |ws| && 0 <= j < |ws|
      ensures Deviation(n, ws[i], total, counts[i]) - Deviation(n, ws[j], total, counts[j]) <= total
    {
      DeviationOfCount(n, ws[i], total, counts[i]);
      DeviationOfCount(n, ws[j], total, counts[j]);
    }
  }

  // ---------------------------------------------------------------------------------------------
  // Optimality, by a threshold on marginal costs
  // ---------------------------------------------------------------------------------------------

  lemma MulKeepsOrder(k: int, a: int, b: int)
    ensures k >= 0 && a <= b ==> k * a <= k * b
    ensures k <= 0 && a <= b ==> k * b <= k * a
  {
  }

  lemma MulCommutes(a: int, b: int)
    ensures a * b == b * a
  {
  }

  lemma MulAdds(k: int, a: int, b: int)
    ensures k * (a + b) == k * a + k * b
  {
  }

  lemma SquareStep(d: int, total: int, k: int)
    ensures (d + total * k) * (d + total * k) == d * d + total * (k * (2 * d + total * k))
  {
  }

  /** With d at most one order below the largest deviation, moving a count by k costs at least k times
      the threshold. */
  lemma MarginalCost(d: int, top: int, total: int, k: int)
    requires total > 0 && d <= top <= d + total
    ensures (d + total * k) * (d + total * k) - d * d >= total * (k * (2 * top - total))
  {
    if k >= 1 {
      MulKeepsOrder(total, 1, k);
      MulKeepsOrder(k, 2 * top - total, 2 * d + total * k);
    } else if k <= -1 {
      MulKeepsOrder(total, k, -1);
      MulKeepsOrder(k, 2 * d + total * k, 2 * top - total);
    }
    MulKeepsOrder(total, k * (2 * top - total), k * (2 * d + total * k));
    SquareStep(d, total, k);
  }

  lemma ThresholdAdds(total: int, rate: int, a: int, b: int)
    ensures total * (a * rate) + total * (b * rate) == total * ((a + b) * rate)
  {
  }

  lemma DeviationMoves(n: nat, w: nat, total: int, x: int, y: int)
    ensures Deviation(n, w, total, y) == Deviation(n, w, total, x) + total * (y - x)
  {
  }

  lemma {:induction false} CostAgainst(n: nat, ws: seq<nat>, total: int, xs: seq<int>, ys: seq<int>, top: int)
    requires total > 0 && |xs| == |ws| == |ys|
    requires forall i :: 0 <= i < |xs| ==>
      Deviation(n, ws[i], total, xs[i]) <= top <= Deviation(n, ws[i], total, xs[i]) + total
    ensures Cost(n, ws, total, ys) - Cost(n, ws, total, xs) >= total * ((Sum(ys) - Sum(xs)) * (2 * top - total))
  {
    if xs == [] {
    } else {
      var k := |xs| - 1;
      CostAgainst(n, ws[..k], total, xs[..k], ys[..k], top);
      DeviationMoves(n, ws[k], total, xs[k], ys[k]);
      MarginalCost(Deviation(n, ws[k], total, xs[k]), top, total, ys[k] - xs[k]);
      ThresholdAdds(total, 2 * top - total, Sum(ys[..k]) - Sum(xs[..k]), ys[k] - xs[k]);
    }
  }

  lemma {:induction false} TopDeviation(n: nat, ws: seq<nat>, total: int, xs: seq<int>) returns (at: nat)
    requires xs != [] && |xs| == |ws|
    ensures at < |xs|
    ensures forall i :: 0 <= i < |xs| ==> Deviation(n, ws[i], total, xs[i]) <= Deviation(n, ws[at], total, xs[at])
  {
    at := 0;
    for k := 1 to |xs|
      invariant at < |xs|
      invariant forall i :: 0 <= i < k ==> Deviation(n, ws[i], total, xs[i]) <= Deviation(n, ws[at], total, xs[at])
    {
      if Deviation(n, ws[at], total, xs[at]) < Deviation(n, ws[k], total, xs[k]) {
        at := k;
      }
    }
  }

  lemma TightIsOptimal(n: nat, ws: seq<nat>, total: int, xs: seq<int>, ys: seq<int>)
    requires total > 0 && Tight(n, ws, total, xs) && |ys| == |xs| && Sum(ys) == Sum(xs)
    ensures Cost(n, ws, total, xs) <= Cost(n, ws, total, ys)
  {
    if xs != [] {
      var at := TopDeviation(n, ws, total, xs);
      var top := Deviation(n, ws[at], total, xs[at]);
      CostAgainst(n, ws, total, xs, ys, top);
    }
  }

  /** The largest-remainder counts have the least sum of squared deviations from the exact quotas among
      all integer vectors with the same total. */
  lemma Optimal(n: nat, ws: seq<nat>, counts: seq<int>, ys: seq<int>)
    requires LargestRemainder(n, ws, counts) && |ys| == |ws| && Sum(ys) == n
    ensures Cost(n, ws, Sum(ws), counts) <= Cost(n, ws, Sum(ws), ys)
  {
    LargestRemainderIsTight(n, ws, counts);
    TightIsOptimal(n, ws, Sum(ws), counts, ys);
  }

  // ---------------------------------------------------------------------------------------------
  // The quota rule, and optimality the other way round
  // ---------------------------------------------------------------------------------------------

  lemma {:induction false} SumOfDeviations(n: nat, ws: seq<nat>, total: int, xs: seq<int>)
    requires |xs| == |ws|
    ensures Sum(Deviations(n, ws, total, xs)) == total * Sum(xs) - n * Sum(ws)
  {
    if xs == [] {
    } else {
      var k := |xs| - 1;
      SumOfDeviations(n, ws[..k], total, xs[..k]);
      assert Deviations(n, ws, total, xs)[..k] == Deviations(n, ws[..k], total, xs[..k]);
      MulAdds(total, Sum(xs[..k]), xs[k]);
      MulAdds(n, Sum(ws[..k]), ws[k]);
    }
  }

  lemma {:induction false} SumOfSameSign(ds: seq<int>, i: int)
    requires 0 <= i < |ds|
    ensures (forall j :: 0 <= j < |ds| ==> ds[j] >= 0) ==> Sum(ds) >= ds[i] && Sum(ds) >= 0
    ensures (forall j :: 0 <= j < |ds| ==> ds[j] <= 0) ==> Sum(ds) <= ds[i] && Sum(ds) <= 0
  {
    if |ds| == 1 {
    } else {
      SumOfSameSign(ds[..|ds| - 1], if i < |ds| - 1 then i else 0);
    }
  }

  lemma DeviationsBalance(n: nat, ws: seq<nat>, xs: seq<int>)
    requires |xs| == |ws| && Sum(xs) == n
    ensures Sum(Deviations(n, ws, Sum(ws), xs)) == 0
  {
    SumOfDeviations(n, ws, Sum(ws), xs);
    MulCommutes(n, Sum(ws));
  }

  lemma BalancedIsSmall(ds: seq<int>, total: int, i: int)
    requires total > 0 && Sum(ds) == 0 && 0 <= i < |ds|
    requires forall j, k :: 0 <= j < |ds| && 0 <= k < |ds| ==> ds[j] - ds[k] <= total
    ensures -total < ds[i] < total
  {
    SumOfSameSign(ds, i);
    assert forall j :: 0 <= j < |ds| ==> ds[i] - ds[j] <= total && ds[j] - ds[i] <= total;
  }

  lemma WithinOneOrder(n: nat, w: nat, total: int, x: int)
    requires total > 0 && -total < Deviation(n, w, total, x) < total
    ensures x == FloorOf(n, w, total) || (x == FloorOf(n, w, total) + 1 && RemainderOf(n, w, total) > 0)
  {
    var f: int := FloorOf(n, w, total);
    FloorAndRemainder(n, w, total);
    if x <= f - 1 {
      MulKeepsOrder(total, x, f - 1);
    } else if x >= f + 2 {
      MulKeepsOrder(total, f + 2, x);
    } else {
      DeviationOfCount(n, w, total, x);
    }
  }

  /** Deviations that add up to nothing and lie within one order of each other are all smaller than one
      order: so every count is the floor of its quota, or one more when the quota is not whole. */
  lemma TightIsLargestRemainder(n: nat, ws: seq<nat>, xs: seq<int>)
    requires Weights(ws) && Sum(ws) > 0 && Tight(n, ws, Sum(ws), xs) && Sum(xs) == n
    ensures LargestRemainder(n, ws, xs)
    ensures forall i :: 0 <= i < |ws| && HasExtra(n, ws, xs, i) ==> RemainderOf(n, ws[i], Sum(ws)) > 0
  {
    var total := Sum(ws);
    var ds := Deviations(n, ws, total, xs);
    DeviationsBalance(n, ws, xs);
    forall i | 0 <= i < |ws|
      ensures xs[i] == FloorOf(n, ws[i], total) ||
              (xs[i] == FloorOf(n, ws[i], total) + 1 && RemainderOf(n, ws[i], total) > 0)
    {
      BalancedIsSmall(ds, total, i);
      WithinOneOrder(n, ws[i], total, xs[i]);
    }
    forall i, j | 0 <= i < |ws| && 0 <= j < |ws| && HasExtra(n, ws, xs, i) && !HasExtra(n, ws, xs, j)
      ensures RemainderOf(n, ws[j], total) <= RemainderOf(n, ws[i], total)
    {
      DeviationOfCount(n, ws[i], total, xs[i]);
      DeviationOfCount(n, ws[j], total, xs[j]);
    }
  }

  /** The quota rule: floor or ceiling of the quota, so a whole quota is met exactly. */
  lemma QuotaRule(n: nat, ws: seq<nat>, counts: seq<int>, i: int)
    requires LargestRemainder(n, ws, counts) && 0 <= i < |ws|
    ensures RemainderOf(n, ws[i], Sum(ws)) == 0 ==> counts[i] * Sum(ws) == n * ws[i]
    ensures n * ws[i] - Sum(ws) < counts[i] * Sum(ws) < n * ws[i] + Sum(ws)
  {
    LargestRemainderIsTight(n, ws, counts);
    TightIsLargestRemainder(n, ws, counts);
    FloorAndRemainder(n, ws[i], Sum(ws));
    DeviationOfCount(n, ws[i], Sum(ws), counts[i]);
  }

  lemma FloorMonotone(n: nat, a: nat, b: nat, total: int)
    requires a < b && total > 0
    ensures FloorOf(n, a, total) <= FloorOf(n, b, total)
    ensures FloorOf(n, a, total) == FloorOf(n, b, total) ==> RemainderOf(n, a, total) + n <= RemainderOf(n, b, total)
  {
    FloorAndRemainder(n, a, total);
    FloorAndRemainder(n, b, total);
    MulKeepsOrder(n, a + 1, b);
    MulAdds(n, a, 1);
    if FloorOf(n, b, total) < FloorOf(n, a, total) {
      MulKeepsOrder(total, FloorOf(n, b, total) + 1, FloorOf(n, a, total));
      MulAdds(total, FloorOf(n, b, total), 1);
    }
  }

  /** A larger weight never receives fewer orders. */
  lemma WeightMonotone(n: nat, ws: seq<nat>, counts: seq<int>, i: int, j: int)
    requires LargestRemainder(n, ws, counts) && 0 <= i < |ws| && 0 <= j < |ws| && ws[j] < ws[i]
    ensures counts[j] <= counts[i]
  {
    LargestRemainderIsTight(n, ws, counts);
    TightIsLargestRemainder(n, ws, counts);
    FloorMonotone(n, ws[j], ws[i], Sum(ws));
    assert HasExtra(n, ws, counts, j) ==> RemainderOf(n, ws[j], Sum(ws)) > 0;
    if n == 0 {
      assert n * ws[j] == 0;
    }
  }

  lemma {:induction false} SumUpdate(xs: seq<int>, i: int, v: int)
    requires 0 <= i < |xs|
    ensures Sum(xs[i := v]) == Sum(xs) - xs[i] + v
  {
    var k := |xs| - 1;
    if i == k {
      assert xs[i := v][..k] == xs[..k];
    } else {
      SumUpdate(xs[..k], i, v);
      assert xs[i := v][..k] == xs[..k][i := v];
    }
  }

  lemma {:induction false} CostUpdate(n: nat, ws: seq<nat>, total: int, xs: seq<int>, i: int, v: int)
    requires 0 <= i < |xs| == |ws|
    ensures
      var d, d' := Deviation(n, ws[i], total, xs[i]), Deviation(n, ws[i], total, v);
      Cost(n, ws, total, xs[i := v]) == Cost(n, ws, total, xs) - d * d + d' * d'
  {
    var k := |xs| - 1;
    if i == k {
      assert xs[i := v][..k] == xs[..k];
    } else {
      CostUpdate(n, ws[..k], total, xs[..k], i, v);
      assert xs[i := v][..k] == xs[..k][i := v];
    }
  }

  /** What one order more or less in scenario i costs. */
  lemma CostMove(n: nat, ws: seq<nat>, total: int, xs: seq<int>, i: int, k: int)
    requires 0 <= i < |xs| == |ws|
    ensures Cost(n, ws, total, xs[i := xs[i] + k])
         == Cost(n, ws, total, xs) + total * (k * (2 * Deviation(n, ws[i], total, xs[i]) + total * k))
  {
    CostUpdate(n, ws, total, xs, i, xs[i] + k);
    DeviationMoves(n, ws[i], total, xs[i], xs[i] + k);
    SquareStep(Deviation(n, ws[i], total, xs[i]), total, k);
  }

  lemma SwapPays(di: int, dj: int, total: int)
    requires total > 0 && di - dj > total
    ensures total * (-1 * (2 * di + total * -1)) + total * (1 * (2 * dj + total * 1)) < 0
  {
    MulAdds(total, -1 * (2 * di + total * -1), 1 * (2 * dj + total * 1));
    MulKeepsOrder(total, 2 * dj - 2 * di + 2 * total, -1);
  }

  /** Moving one order from i to j pays when their deviations are more than one order apart. */
  lemma MovingOnePays(n: nat, ws: seq<nat>, total: int, xs: seq<int>, i: int, j: int)
    requires |xs| == |ws| && 0 <= i < |xs| && 0 <= j < |xs| && i != j && total > 0
    requires Deviation(n, ws[i], total, xs[i]) - Deviation(n, ws[j], total, xs[j]) > total
    ensures
      var ys := xs[i := xs[i] + -1][j := xs[j] + 1];
      Sum(ys) == Sum(xs) && Cost(n, ws, total, ys) < Cost(n, ws, total, xs)
  {
    SumUpdate(xs, i, xs[i] + -1);
    SumUpdate(xs[i := xs[i] + -1], j, xs[j] + 1);
    CostMove(n, ws, total, xs, i, -1);
    CostMove(n, ws, total, xs[i := xs[i] + -1], j, 1);
    SwapPays(Deviation(n, ws[i], total, xs[i]), Deviation(n, ws[j], total, xs[j]), total);
  }

  /** A vector of natural numbers that hands out n orders. */
  ghost predicate Allocation(n: nat, ws: seq<nat>, xs: seq<int>) {
    |xs| == |ws| && Sum(xs) == n && forall i :: 0 <= i < |xs| ==> xs[i] >= 0
  }

  ghost predicate LeastSquares(n: nat, ws: seq<nat>, xs: seq<int>) {
    Allocation(n, ws, xs) &&
    forall ys :: Allocation(n, ws, ys) ==> Cost(n, ws, Sum(ws), xs) <= Cost(n, ws, Sum(ws), ys)
  }

  /** If a scenario without orders is far ahead of another, a third has orders to spare. */
  lemma SomeoneHasToSpare(n: nat, ws: seq<nat>, xs: seq<int>, j: int)
    requires Allocation(n, ws, xs) && 0 <= j < |xs| && Deviation(n, ws[j], Sum(ws), xs[j]) < 0
    ensures exists l :: 0 <= l < |xs| && Deviation(n, ws[l], Sum(ws), xs[l]) > 0
  {
    var ds := Deviations(n, ws, Sum(ws), xs);
    DeviationsBalance(n, ws, xs);
    SumOfSameSign(ds, j);
    var l :| 0 <= l < |ds| && ds[l] > 0;
    assert Deviation(n, ws[l], Sum(ws), xs[l]) > 0;
  }

  ghost function PositiveDeviation(n: nat, ws: seq<nat>, xs: seq<int>, i: int, j: int): (l: int)
    requires Allocation(n, ws, xs) && Sum(ws) > 0 && 0 <= i < |xs| && 0 <= j < |xs| && xs[i] == 0
    requires Deviation(n, ws[i], Sum(ws), xs[i]) - Deviation(n, ws[j], Sum(ws), xs[j]) > Sum(ws)
    ensures 0 <= l < |xs| && l != j && xs[l] > 0
    ensures Deviation(n, ws[l], Sum(ws), xs[l]) - Deviation(n, ws[j], Sum(ws), xs[j]) > Sum(ws)
  {
    MulKeepsOrder(n, 0, ws[i]);
    SomeoneHasToSpare(n, ws, xs, j);
    var l :| 0 <= l < |xs| && Deviation(n, ws[l], Sum(ws), xs[l]) > 0;
    MulKeepsOrder(n, 0, ws[l]);
    l
  }

  lemma LeastSquaresIsTight(n: nat, ws: seq<nat>, xs: seq<int>)
    requires Weights(ws) && Sum(ws) > 0 && LeastSquares(n, ws, xs)
    ensures Tight(n, ws, Sum(ws), xs)
  {
    var total := Sum(ws);
    forall i, j | 0 <= i < |xs| && 0 <= j < |xs|
      ensures Deviation(n, ws[i], total, xs[i]) - Deviation(n, ws[j], total, xs[j]) <= total
    {
      if Deviation(n, ws[i], total, xs[i]) - Deviation(n, ws[j], total, xs[j]) > total {
        var from := if xs[i] > 0 then i else PositiveDeviation(n, ws, xs, i, j);
        MovingOnePays(n, ws, total, xs, from, j);
      }
    }
  }

  /** The rule and the optimum are the same thing: an allocation minimises the sum of squared deviations
      from the exact quotas if and only if it is a largest-remainder outcome. */
  lemma LeastSquaresIffLargestRemainder(n: nat, ws: seq<nat>, xs: seq<int>)
    requires Weights(ws)
    ensures LeastSquares(n, ws, xs) <==> LargestRemainder(n, ws, xs)
  {
    SumPositive(ws);
    if LeastSquares(n, ws, xs) {
      LeastSquaresIsTight(n, ws, xs);
      TightIsLargestRemainder(n, ws, xs);
    }
    if LargestRemainder(n, ws, xs) {
      forall ys | Allocation(n, ws, ys) ensures Cost(n, ws, Sum(ws), xs) <= Cost(n, ws, Sum(ws), ys) {
        Optimal(n, ws, xs, ys);
      }
    }
  }
}
