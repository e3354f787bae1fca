/** The simulator's assignment of scenarios to orders, as the loops and list updates of the runner. */
module ScenarioAssignment {
  import opened Apportionment

  datatype Weighted = Weighted(name: string, weight: nat)

  /** One row of fractional_counts. The remainder stands for total_weight times the fractional part. */
  datatype Fraction = Fraction(name: string, floor: nat, remainder: nat)

  const DISTRIBUTION_MAPPING: seq<(string, string)> := [
    ("onTimePercentage", "on-time-orders"),
    ("delayedPercentage", "delayed-orders"),
    ("cancelledPercentage", "cancelled-orders"),
    ("etaUpdatedPercentage", "eta-updated-orders"),
    ("duplicatePercentage", "duplicate-events"),
    ("outOfOrderPercentage", "out-of-order-updates")]

  /** The weight the scenario of the given row asks for, 0 when it takes no part. */
  function WeightOf(distribution: map<string, int>, included: seq<string>, row: (string, string)): nat {
    if row.0 in distribution && distribution[row.0] > 0 && row.1 in included then distribution[row.0] else 0
  }

  /** The distribution gives the weight under the key. */
  predicate Weighs(distribution: map<string, int>, key: string, weight: nat) {
    key in distribution && distribution[key] == weight && weight > 0
  }

  /** The scenario is included, and its own key of the distribution gives it this positive weight. */
  predicate AskedFor(distribution: map<string, int>, included: seq<string>, w: Weighted) {
    w.name in included && (
    || (w.name == "on-time-orders" && Weighs(distribution, "onTimePercentage", w.weight))
    || (w.name == "delayed-orders" && Weighs(distribution, "delayedPercentage", w.weight))
    || (w.name == "cancelled-orders" && Weighs(distribution, "cancelledPercentage", w.weight))
    || (w.name == "eta-updated-orders" && Weighs(distribution, "etaUpdatedPercentage", w.weight))
    || (w.name == "duplicate-events" && Weighs(distribution, "duplicatePercentage", w.weight))
    || (w.name == "out-of-order-updates" && Weighs(distribution, "outOfOrderPercentage", w.weight)))
  }

  /** The row names an included scenario and the distribution gives it this positive weight. */
  predicate Gives(distribution: map<string, int>, included: seq<string>, row: (string, string), w: Weighted) {
    && row.1 in included && w.name == row.1
    && row.0 in distribution && w.weight == distribution[row.0] && distribution[row.0] > 0
  }

  function WeightedScenarios(distribution: map<string, int>, included: seq<string>, rows: seq<(string,
                             string)>): seq<Weighted> {
    if rows == [] then []
    else
      var row := rows[|rows| - 1];
      var w := WeightOf(distribution, included, row);
      WeightedScenarios(distribution, included, rows[..|rows| - 1]) + if w > 0 then [Weighted(row.1, w)] else []
  }

  function WeightsOf(ws: seq<Weighted>): (r: seq<nat>)
    ensures |r| == |ws| && forall i :: 0 <= i < |ws| ==> r[i] == ws[i].weight
  {
    seq(|ws|, i requires 0 <= i < |ws| => ws[i].weight)
  }

  ghost predicate DistinctNames(ws: seq<Weighted>) {
    forall i, j :: 0 <= i < j < |ws| ==> ws[i].name != ws[j].name
  }

  lemma {:induction false} WeightedRows(distribution: map<string, int>, included: seq<string>, rows: seq<(string,
                                        string)>)
    requires forall i, j :: 0 <= i < j < |rows| ==> rows[i].1 != rows[j].1
    ensures
      var ws := WeightedScenarios(distribution, included, rows);
      && DistinctNames(ws)
      && forall i :: 0 <= i < |ws| ==> ws[i].weight > 0 && exists k :: 0 <= k < |rows| && rows[k].1 == ws[i].name
  {
    if rows == [] {
    } else {
      var init := rows[..|rows| - 1];
      WeightedRows(distribution, included, init);
      var ws, ws' := WeightedScenarios(distribution, included, rows), WeightedScenarios(distribution, included, init);
      forall i | 0 <= i < |ws| ensures exists k :: 0 <= k < |rows| && rows[k].1 == ws[i].name {
        if i < |ws'| {
          assert ws[i] == ws'[i];
          var k :| 0 <= k < |init| && init[k].1 == ws'[i].name;
          assert rows[k].1 == ws[i].name;
        } else {
          assert rows[|rows| - 1].1 == ws[i].name;
        }
      }
      assert forall i :: 0 <= i < |ws'| ==> ws[i] == ws'[i];
    }
  }

  /** A usable list of scenarios: distinct names, positive weights, at least one. */
  ghost predicate Usable(ws: seq<Weighted>) {
    DistinctNames(ws) && Weights(WeightsOf(ws))
  }

  lemma MappingIsUsable(distribution: map<string, int>, included: seq<string>)
    requires WeightedScenarios(distribution, included, DISTRIBUTION_MAPPING) != []
    ensures Usable(WeightedScenarios(distribution, included, DISTRIBUTION_MAPPING))
  {
    WeightedRows(distribution, included, DISTRIBUTION_MAPPING);
  }

  // ---------------------------------------------------------------------------------------------
  // Counting
  // ---------------------------------------------------------------------------------------------

  function Occurrences(xs: seq<string>, name: string): nat {
    if xs == [] then 0
    else Occurrences(xs[..|xs| - 1], name) + if xs[|xs| - 1] == name then 1 else 0
  }

  /** How often each scenario occurs among the assignments. */
  function CountsIn(ws: seq<Weighted>, xs: seq<string>): (r: seq<int>)
    ensures |r| == |ws| && forall i :: 0 <= i < |ws| ==> r[i] == Occurrences(xs, ws[i].name)
  {
    seq(|ws|, i requires 0 <= i < |ws| => Occurrences(xs, ws[i].name))
  }

  ghost predicate Known(ws: seq<Weighted>, name: string) {
    exists i :: 0 <= i < |ws| && ws[i].name == name
  }

  ghost predicate OnlyNames(ws: seq<Weighted>, xs: seq<string>) {
    forall k :: 0 <= k < |xs| ==> Known(ws, xs[k])
  }

  lemma {:induction false} SumOfZeros(xs: seq<int>)
    requires forall i :: 0 <= i < |xs| ==> xs[i] == 0
    ensures Sum(xs) == 0
  {
    if xs == [] {
    } else {
      SumOfZeros(xs[..|xs| - 1]);
    }
  }

  /** When every assignment is a known scenario, the counts add up to the number of orders. */
  lemma {:induction false} CountsAddUp(ws: seq<Weighted>, xs: seq<string>)
    requires DistinctNames(ws) && OnlyNames(ws, xs)
    ensures Sum(CountsIn(ws, xs)) == |xs|
  {
    if xs == [] {
      SumOfZeros(CountsIn(ws, xs));
    } else {
      var init, last := xs[..|xs| - 1], xs[|xs| - 1];
      forall k | 0 <= k < |init| ensures Known(ws, init[k]) {
        assert Known(ws, xs[k]);
      }
      CountsAddUp(ws, init);
      assert Known(ws, xs[|xs| - 1]);
      var i :| 0 <= i < |ws| && ws[i].name == last;
      var before := CountsIn(ws, init);
      assert CountsIn(ws, xs) == before[i := before[i] + 1];
      SumUpdate(before, i, before[i] + 1);
    }
  }

  function FloorsOf(fs: seq<Fraction>): (r: seq<int>)
    ensures |r| == |fs| && forall i :: 0 <= i < |fs| ==> r[i] == fs[i].floor
  {
    seq(|fs|, i requires 0 <= i < |fs| => fs[i].floor)
  }

  lemma {:induction false} SumSplit(xs: seq<int>, i: int)
    requires 0 <= i < |xs|
    ensures Sum(xs) == Sum(xs[..i] + xs[i + 1..]) + xs[i]
  {
    var k := |xs| - 1;
    if i == k {
      assert xs[..i] + xs[i + 1..] == xs[..k];
    } else {
      SumSplit(xs[..k], i);
      var rest := xs[..i] + xs[i + 1..];
      assert rest[..|rest| - 1] == xs[..k][..i] + xs[..k][i + 1..];
    }
  }

  lemma FloorsInserted(fs: seq<Fraction>, p: nat, f: Fraction)
    requires p <= |fs|
    ensures Sum(FloorsOf(fs[..p] + [f] + fs[p..])) == Sum(FloorsOf(fs)) + f.floor
  {
    var longer := fs[..p] + [f] + fs[p..];
    SumSplit(FloorsOf(longer), p);
    assert FloorsOf(longer)[..p] + FloorsOf(longer)[p + 1..] == FloorsOf(fs);
  }

  // ---------------------------------------------------------------------------------------------
  // The leftover
  // ---------------------------------------------------------------------------------------------

  lemma {:induction false} SumScaled(n: nat, ws: seq<nat>, total: int, fs: seq<int>, rs: seq<int>)
    requires |fs| == |rs| == |ws|
    requires forall i :: 0 <= i < |ws| ==> n * ws[i] == total * fs[i] + rs[i]
    ensures total * Sum(fs) + Sum(rs) == n * Sum(ws)
  {
    if ws == [] {
    } else {
      var k := |ws| - 1;
      SumScaled(n, ws[..k], total, fs[..k], rs[..k]);
      MulAdds(total, Sum(fs[..k]), fs[k]);
      MulAdds(n, Sum(ws[..k]), ws[k]);
    }
  }

  lemma {:induction false} SumBelow(rs: seq<int>, top: int)
    requires forall i :: 0 <= i < |rs| ==> 0 <= rs[i] <= top
    ensures 0 <= Sum(rs) <= top * |rs|
  {
    if rs == [] {
    } else {
      SumBelow(rs[..|rs| - 1], top);
      MulAdds(top, |rs| - 1, 1);
    }
  }

  lemma LeftoverArithmetic(n: int, total: int, given: int, rest: int, count: int)
    requires total > 0 && count > 0 && total * given + rest == n * total && 0 <= rest <= (total - 1) * count
    ensures 0 <= n - given < count
  {
    MulAdds(total, n - given, given);
    if n - given < 0 {
      MulKeepsOrder(total, n - given, -1);
    } else if n - given >= count {
      MulKeepsOrder(total, count, n - given);
    }
  }

  /** The floors never hand out too much, and what they leave over is less than one order per scenario:
      the slice that gets the extras never runs out. */
  lemma LeftoverBound(n: nat, ws: seq<nat>, fs: seq<int>)
    requires Weights(ws) && |fs| == |ws|
    requires Sum(ws) > 0
    requires forall i :: 0 <= i < |ws| ==> fs[i] == FloorOf(n, ws[i], Sum(ws))
    ensures 0 <= n - Sum(fs) < |ws|
  {
    var total := Sum(ws);
    var rs: seq<int> := Remainders(n, ws, total);
    forall i | 0 <= i < |ws| ensures n * ws[i] == total * fs[i] + rs[i] && 0 <= rs[i] <= total - 1 {
      FloorAndRemainder(n, ws[i], total);
    }
    SumScaled(n, ws, total, fs, rs);
    SumBelow(rs, total - 1);
    LeftoverArithmetic(n, total, Sum(fs), Sum(rs), |ws|);
  }

  // ---------------------------------------------------------------------------------------------
  // The loops
  // ---------------------------------------------------------------------------------------------

  /** A scenario is kept exactly when some row of the mapping gives it a positive weight and it is
      included, and then with that weight. */
  lemma {:induction false} WeightedExactly(distribution: map<string, int>, included: seq<string>,
                                           rows: seq<(string, string)>, w: Weighted)
    ensures w in WeightedScenarios(distribution, included, rows) <==>
              exists k :: 0 <= k < |rows| && Gives(distribution, included, rows[k], w)
  {
    if rows == [] {
    } else {
      var init, last := rows[..|rows| - 1], rows[|rows| - 1];
      WeightedExactly(distribution, included, init, w);
      assert Gives(distribution, included, last, w) <==>
               WeightOf(distribution, included, last) > 0 &&
               w == Weighted(last.1, WeightOf(distribution, included, last));
      if exists k :: 0 <= k < |init| && Gives(distribution, included, init[k], w) {
        var k :| 0 <= k < |init| && Gives(distribution, included, init[k], w);
        assert Gives(distribution, included, rows[k], w);
      } else if Gives(distribution, included, last, w) {
        assert Gives(distribution, included, rows[|rows| - 1], w);
      } else {
        forall k | 0 <= k < |rows| ensures !Gives(distribution, included, rows[k], w) {
          assert k < |init| ==> rows[k] == init[k];
        }
      }
    }
  }

  /** The rows of the mapping give each scenario its own key. */
  lemma WeightsByKey(distribution: map<string, int>, included: seq<string>, w: Weighted)
    ensures w in WeightedScenarios(distribution, included, DISTRIBUTION_MAPPING)
       <==> AskedFor(distribution, included, w)
  {
    var rows := DISTRIBUTION_MAPPING;
    WeightedExactly(distribution, included, rows, w);
    if AskedFor(distribution, included, w) {
      var k := if w.name == "on-time-orders" then 0 else if w.name == "delayed-orders" then 1
               else if w.name == "cancelled-orders" then 2 else if w.name == "eta-updated-orders" then 3
               else if w.name == "duplicate-events" then 4 else 5;
      assert Gives(distribution, included, rows[k], w);
    }
  }

  /** The scenarios come in the order of their rows. */
  ghost predicate InRowOrder(rows: seq<(string, string)>, ws: seq<Weighted>) {
    forall i, j, k, l | 0 <= i < j < |ws| && 0 <= k < |rows| && 0 <= l < |rows| ::
      ws[i].name == rows[k].1 && ws[j].name == rows[l].1 ==> k < l
  }

  lemma {:induction false} WeightedRow(distribution: map<string, int>, included: seq<string>,
                                       rows: seq<(string, string)>, i: nat) returns (k: nat)
    requires i < |WeightedScenarios(distribution, included, rows)|
    ensures k < |rows| && rows[k].1 == WeightedScenarios(distribution, included, rows)[i].name
  {
    var init := rows[..|rows| - 1];
    if i < |WeightedScenarios(distribution, included, init)| {
      k := WeightedRow(distribution, included, init, i);
    } else {
      k := |rows| - 1;
    }
  }

  lemma {:induction false} RowsInOrder(distribution: map<string, int>, included: seq<string>,
                                       rows: seq<(string, string)>, i: nat, j: nat, k: nat, l: nat)
    requires forall p, q :: 0 <= p < q < |rows| ==> rows[p].1 != rows[q].1
    requires i < j < |WeightedScenarios(distribution, included, rows)| && k < |rows| && l < |rows|
    requires WeightedScenarios(distribution, included, rows)[i].name == rows[k].1
    requires WeightedScenarios(distribution, included, rows)[j].name == rows[l].1
    ensures k < l
  {
    var init := rows[..|rows| - 1];
    var k' := WeightedRow(distribution, included, init, i);
    assert rows[k'].1 == rows[k].1;
    if j < |WeightedScenarios(distribution, included, init)| {
      var l' := WeightedRow(distribution, included, init, j);
      assert rows[l'].1 == rows[l].1;
      RowsInOrder(distribution, included, init, i, j, k, l);
    }
  }

  lemma WeightedInRowOrder(distribution: map<string, int>, included: seq<string>, rows: seq<(string, string)>)
    requires forall i, j :: 0 <= i < j < |rows| ==> rows[i].1 != rows[j].1
    ensures InRowOrder(rows, WeightedScenarios(distribution, included, rows))
  {
    var ws := WeightedScenarios(distribution, included, rows);
    forall i, j, k, l | 0 <= i < j < |ws| && 0 <= k < |rows| && 0 <= l < |rows| &&
                        ws[i].name == rows[k].1 && ws[j].name == rows[l].1
      ensures k < l
    {
      RowsInOrder(distribution, included, rows, i, j, k, l);
    }
  }

  method CollectWeights(distribution: map<string, int>, included: seq<string>) returns (weighted: seq<Weighted>)
    ensures weighted == WeightedScenarios(distribution, included, DISTRIBUTION_MAPPING)
    ensures InRowOrder(DISTRIBUTION_MAPPING, weighted)
    ensures forall w :: w in weighted <==> AskedFor(distribution, included, w)
  {
    weighted := [];
    for k := 0 to |DISTRIBUTION_MAPPING|
      invariant weighted == WeightedScenarios(distribution, included, DISTRIBUTION_MAPPING[..k])
    {
      var (key, scenario) := DISTRIBUTION_MAPPING[k];
      var weight := if key in distribution then distribution[key] else 0;
      if weight > 0 && scenario in included {
        weighted := weighted + [Weighted(scenario, weight)];
      }
      assert DISTRIBUTION_MAPPING[..k + 1][..k] == DISTRIBUTION_MAPPING[..k];
    }
    assert DISTRIBUTION_MAPPING[..|DISTRIBUTION_MAPPING|] == DISTRIBUTION_MAPPING;
    WeightedInRowOrder(distribution, included, DISTRIBUTION_MAPPING);
    forall w ensures w in weighted <==> AskedFor(distribution, included, w) {
      WeightsByKey(distribution, included, w);
    }
  }

  ghost predicate IsFractionOf(n: nat, total: int, w: Weighted, f: Fraction)
    requires total > 0
  {
    f == Fraction(w.name, FloorOf(n, w.weight, total), RemainderOf(n, w.weight, total))
  }

  ghost predicate Descending(fs: seq<Fraction>) {
    forall p, q :: 0 <= p < q < |fs| ==> fs[q].remainder <= fs[p].remainder
  }

  ghost predicate DistinctRows(fs: seq<Fraction>) {
    forall p, q :: 0 <= p < q < |fs| ==> fs[p].name != fs[q].name
  }

  ghost predicate SameRows(fs: seq<Fraction>, sorted: seq<Fraction>) {
    |sorted| == |fs| && forall f :: f in sorted <==> f in fs
  }

  lemma InsertedSameRows(fs: seq<Fraction>, k: nat, sorted: seq<Fraction>, p: nat)
    requires k < |fs| && SameRows(fs[..k], sorted) && p <= |sorted|
    ensures SameRows(fs[..k + 1], sorted[..p] + [fs[k]] + sorted[p..])
  {
    var longer := sorted[..p] + [fs[k]] + sorted[p..];
    assert sorted == sorted[..p] + sorted[p..];
    assert fs[..k + 1] == fs[..k] + [fs[k]];
    forall f ensures f in longer <==> f in fs[..k + 1] {
      assert f in longer <==> f in sorted || f == fs[k];
    }
  }

  lemma InsertedDistinct(sorted: seq<Fraction>, p: nat, f: Fraction)
    requires DistinctRows(sorted) && p <= |sorted| && forall q :: 0 <= q < |sorted| ==> sorted[q].name != f.name
    ensures DistinctRows(sorted[..p] + [f] + sorted[p..])
  {
  }

  lemma InsertedRow(fs: seq<Fraction>, k: nat, sorted: seq<Fraction>, p: nat)
    requires k < |fs| && DistinctRows(fs) && SameRows(fs[..k], sorted) && DistinctRows(sorted) && p <= |sorted|
    requires Sum(FloorsOf(sorted)) == Sum(FloorsOf(fs[..k]))
    ensures
      var longer := sorted[..p] + [fs[k]] + sorted[p..];
      && SameRows(fs[..k + 1], longer) && DistinctRows(longer)
      && Sum(FloorsOf(longer)) == Sum(FloorsOf(fs[..k + 1]))
  {
    InsertedSameRows(fs, k, sorted, p);
    forall q | 0 <= q < |sorted| ensures sorted[q].name != fs[k].name {
      assert sorted[q] in fs[..k];
    }
    InsertedDistinct(sorted, p, fs[k]);
    FloorsInserted(sorted, p, fs[k]);
    assert FloorsOf(fs[..k + 1])[..k] == FloorsOf(fs[..k]);
  }

  lemma InsertedDescending(sorted: seq<Fraction>, p: nat, f: Fraction)
    requires Descending(sorted) && p <= |sorted|
    requires forall q :: 0 <= q < p ==> f.remainder <= sorted[q].remainder
    requires p < |sorted| ==> sorted[p].remainder <= f.remainder
    ensures Descending(sorted[..p] + [f] + sorted[p..])
  {
  }

  /** A stable sort by descending remainder. Callers learn only that the result is a permutation in
      descending order, so what is proved of them holds for every order among equal remainders. */
  method SortByRemainder(fs: seq<Fraction>) returns (sorted: seq<Fraction>)
    requires DistinctRows(fs)
    ensures SameRows(fs, sorted) && DistinctRows(sorted) && Descending(sorted)
    ensures Sum(FloorsOf(sorted)) == Sum(FloorsOf(fs))
  {
    sorted := [];
    for k := 0 to |fs|
      invariant SameRows(fs[..k], sorted) && DistinctRows(sorted) && Descending(sorted)
      invariant Sum(FloorsOf(sorted)) == Sum(FloorsOf(fs[..k]))
    {
      var p := 0;
      while p < |sorted| && fs[k].remainder <= sorted[p].remainder
        invariant 0 <= p <= |sorted|
        invariant forall q :: 0 <= q < p ==> fs[k].remainder <= sorted[q].remainder
      {
        p := p + 1;
      }
      InsertedRow(fs, k, sorted, p);
      InsertedDescending(sorted, p, fs[k]);
      sorted := sorted[..p] + [fs[k]] + sorted[p..];
    }
    assert fs[..|fs|] == fs;
  }

  function Repeated(name: string, count: nat): (xs: seq<string>)
    ensures |xs| == count && forall k :: 0 <= k < count ==> xs[k] == name
  {
    seq(count, _ => name)
  }

  lemma {:induction false} OccurrencesAdd(xs: seq<string>, block: seq<string>, name: string)
    ensures Occurrences(xs + block, name) == Occurrences(xs, name) + Occurrences(block, name)
  {
    if block == [] {
      assert xs + block == xs;
    } else {
      OccurrencesAdd(xs, block[..|block| - 1], name);
      assert (xs + block)[..|xs + block| - 1] == xs + block[..|block| - 1];
    }
  }

  lemma {:induction false} OccurrencesRepeated(xs: seq<string>, name: string, other: string)
    requires forall k :: 0 <= k < |xs| ==> xs[k] == name
    ensures Occurrences(xs, other) == if other == name then |xs| else 0
  {
    if xs == [] {
    } else {
      OccurrencesRepeated(xs[..|xs| - 1], name, other);
    }
  }

  /** Floors for everyone, one extra for the first rows of the sorted list. */
  ghost predicate Extras(fs: seq<Fraction>, remaining: nat, assignedCounts: map<string, nat>) {
    forall p :: 0 <= p < |fs| ==>
      fs[p].name in assignedCounts && assignedCounts[fs[p].name] == fs[p].floor + if p < remaining then 1 else 0
  }

  /** The first k rows of the ranking, each as a block of its scenario's name. */
  function Blocks(fs: seq<Fraction>, remaining: nat, k: nat): seq<string>
    requires k <= |fs|
  {
    if k == 0 then []
    else Blocks(fs, remaining, k - 1) + Repeated(fs[k - 1].name, fs[k - 1].floor + if k - 1 < remaining then 1 else 0)
  }

  lemma {:induction false} BlocksLength(fs: seq<Fraction>, remaining: nat, k: nat)
    requires k <= |fs|
    ensures |Blocks(fs, remaining, k)| == Sum(FloorsOf(fs)[..k]) + if k < remaining then k else remaining
  {
    if k == 0 {
    } else {
      BlocksLength(fs, remaining, k - 1);
      assert FloorsOf(fs)[..k][..k - 1] == FloorsOf(fs)[..k - 1];
    }
  }

  lemma {:induction false} BlocksNames(fs: seq<Fraction>, remaining: nat, k: nat, i: nat) returns (p: nat)
    requires k <= |fs| && i < |Blocks(fs, remaining, k)|
    ensures p < k && fs[p].name == Blocks(fs, remaining, k)[i]
  {
    if i < |Blocks(fs, remaining, k - 1)| {
      p := BlocksNames(fs, remaining, k - 1, i);
    } else {
      p := k - 1;
    }
  }

  /** A row's name occurs as often as its block is long, once its block is there. */
  lemma {:induction false} BlocksOccurrences(fs: seq<Fraction>, remaining: nat, k: nat, p: nat)
    requires DistinctRows(fs) && k <= |fs| && p < |fs|
    ensures Occurrences(Blocks(fs, remaining, k), fs[p].name)
         == if p < k then fs[p].floor + (if p < remaining then 1 else 0) else 0
  {
    if k == 0 {
    } else {
      BlocksOccurrences(fs, remaining, k - 1, p);
      var last := fs[k - 1];
      var block := Repeated(last.name, last.floor + if k - 1 < remaining then 1 else 0);
      OccurrencesAdd(Blocks(fs, remaining, k - 1), block, fs[p].name);
      OccurrencesRepeated(block, last.name, fs[p].name);
    }
  }

  /** The assignments follow the ranking: a scenario ranked earlier is assigned earlier. */
  ghost predicate FollowsRanking(fs: seq<Fraction>, assignments: seq<string>) {
    forall i, j, p, q | 0 <= i < j < |assignments| && 0 <= p < |fs| && 0 <= q < |fs| ::
      fs[p].name == assignments[i] && fs[q].name == assignments[j] ==> p <= q
  }

  lemma {:induction false} BlocksRanked(fs: seq<Fraction>, remaining: nat, k: nat, i: nat, j: nat, p: nat, q: nat)
    requires DistinctRows(fs) && k <= |fs| && i < j < |Blocks(fs, remaining, k)| && p < |fs| && q < |fs|
    requires fs[p].name == Blocks(fs, remaining, k)[i] && fs[q].name == Blocks(fs, remaining, k)[j]
    ensures p <= q
  {
    if j < |Blocks(fs, remaining, k - 1)| {
      BlocksRanked(fs, remaining, k - 1, i, j, p, q);
    } else {
      var r := BlocksNames(fs, remaining, k, i);
      assert fs[q].name == fs[k - 1].name;
    }
  }

  lemma BlocksFollowRanking(fs: seq<Fraction>, remaining: nat)
    requires DistinctRows(fs)
    ensures FollowsRanking(fs, Blocks(fs, remaining, |fs|))
  {
    var bs := Blocks(fs, remaining, |fs|);
    forall i, j, p, q | 0 <= i < j < |bs| && 0 <= p < |fs| && 0 <= q < |fs| &&
                        fs[p].name == bs[i] && fs[q].name == bs[j]
      ensures p <= q
    {
      BlocksRanked(fs, remaining, |fs|, i, j, p, q);
    }
  }

  /** Every row's name occurs as often as its block is long, and no other name occurs. */
  lemma BlocksCount(fs: seq<Fraction>, remaining: nat)
    requires DistinctRows(fs) && remaining <= |fs|
    ensures |Blocks(fs, remaining, |fs|)| == Sum(FloorsOf(fs)) + remaining
    ensures forall p :: 0 <= p < |fs| ==>
      Occurrences(Blocks(fs, remaining, |fs|), fs[p].name) == fs[p].floor + if p < remaining then 1 else 0
    ensures forall i :: 0 <= i < |Blocks(fs, remaining, |fs|)| ==>
      exists p :: 0 <= p < |fs| && fs[p].name == Blocks(fs, remaining, |fs|)[i]
  {
    BlocksLength(fs, remaining, |fs|);
    assert FloorsOf(fs)[..|fs|] == FloorsOf(fs);
    forall p | 0 <= p < |fs|
      ensures Occurrences(Blocks(fs, remaining, |fs|), fs[p].name) == fs[p].floor + if p < remaining then 1 else 0
    {
      BlocksOccurrences(fs, remaining, |fs|, p);
    }
    forall i | 0 <= i < |Blocks(fs, remaining, |fs|)|
      ensures exists p :: 0 <= p < |fs| && fs[p].name == Blocks(fs, remaining, |fs|)[i]
    {
      var p := BlocksNames(fs, remaining, |fs|, i);
    }
  }

  /** The last loop: each scenario's name as often as it was assigned. */
  method Expand(fs: seq<Fraction>, ghost remaining: nat, assignedCounts: map<string, nat>)
    returns (assignments: seq<string>)
    requires DistinctRows(fs) && Extras(fs, remaining, assignedCounts)
    ensures FollowsRanking(fs, assignments)
    ensures forall p :: 0 <= p < |fs| ==> Occurrences(assignments, fs[p].name) == assignedCounts[fs[p].name]
    ensures assignments == Blocks(fs, remaining, |fs|)
  {
    BlocksFollowRanking(fs, remaining);
    forall p | 0 <= p < |fs|
      ensures Occurrences(Blocks(fs, remaining, |fs|), fs[p].name) == assignedCounts[fs[p].name]
    {
      BlocksOccurrences(fs, remaining, |fs|, p);
    }
    assignments := [];
    for k := 0 to |fs|
      invariant assignments == Blocks(fs, remaining, k)
    {
      assignments := assignments + Repeated(fs[k].name, assignedCounts[fs[k].name]);
    }
  }

  ghost predicate Outcome(weighted: seq<Weighted>, rows: seq<Fraction>, fs: seq<Fraction>, remaining: nat,
                          assignments: seq<string>) {
    && |rows| == |weighted| && SameRows(rows, fs) && Descending(fs)
    && (forall i :: 0 <= i < |rows| ==> rows[i].name == weighted[i].name)
    && (forall p :: 0 <= p < |fs| ==>
          Occurrences(assignments, fs[p].name) == fs[p].floor + if p < remaining then 1 else 0)
    && (forall k :: 0 <= k < |assignments| ==> exists p :: 0 <= p < |fs| && fs[p].name == assignments[k])
  }

  lemma OnlyKnownNames(weighted: seq<Weighted>, rows: seq<Fraction>, fs: seq<Fraction>, remaining: nat,
                       assignments: seq<string>)
    requires Outcome(weighted, rows, fs, remaining, assignments)
    ensures OnlyNames(weighted, assignments)
  {
    forall k | 0 <= k < |assignments| ensures Known(weighted, assignments[k]) {
      var p :| 0 <= p < |fs| && fs[p].name == assignments[k];
      assert fs[p] in rows;
      var i :| 0 <= i < |rows| && rows[i] == fs[p];
      assert weighted[i].name == assignments[k];
    }
  }

  /** The row stands at place p of the ranking and got its extra accordingly. */
  ghost predicate RankedAt(fs: seq<Fraction>, row: Fraction, p: int, remaining: nat, count: int) {
    0 <= p < |fs| && fs[p] == row && count == row.floor + if p < remaining then 1 else 0
  }

  ghost function RankOf(fs: seq<Fraction>, row: Fraction): (p: int)
    requires row in fs
    ensures 0 <= p < |fs| && fs[p] == row
  {
    var p :| 0 <= p < |fs| && fs[p] == row;
    p
  }

  lemma RanksOfRows(weighted: seq<Weighted>, rows: seq<Fraction>, fs: seq<Fraction>, remaining: nat,
                    assignments: seq<string>)
    requires Outcome(weighted, rows, fs, remaining, assignments)
    ensures forall i :: 0 <= i < |rows| ==>
      rows[i] in fs && RankedAt(fs, rows[i], RankOf(fs, rows[i]), remaining, CountsIn(weighted, assignments)[i])
  {
    forall i | 0 <= i < |rows|
      ensures rows[i] in fs && RankedAt(fs, rows[i], RankOf(fs, rows[i]), remaining, CountsIn(weighted, assignments)[i])
    {
      assert rows[i] in rows;
      assert fs[RankOf(fs, rows[i])].name == weighted[i].name;
    }
  }

  /** Every row of the assignment holds the floor and the remainder of its scenario. */
  ghost predicate FractionsOf(weighted: seq<Weighted>, n: nat, rows: seq<Fraction>)
    requires Sum(WeightsOf(weighted)) > 0
  {
    && |rows| == |weighted|
    && forall i :: 0 <= i < |rows| ==> IsFractionOf(n, Sum(WeightsOf(weighted)), weighted[i], rows[i])
  }

  lemma ExtraMeansRankedFirst(weighted: seq<Weighted>, n: nat, rows: seq<Fraction>, fs: seq<Fraction>,
                              remaining: nat, assignments: seq<string>, i: int)
    requires Sum(WeightsOf(weighted)) > 0 && FractionsOf(weighted, n, rows)
    requires Outcome(weighted, rows, fs, remaining, assignments) && 0 <= i < |rows|
    ensures
      var ws, counts := WeightsOf(weighted), CountsIn(weighted, assignments);
      && rows[i] in fs && rows[i].remainder == RemainderOf(n, ws[i], Sum(ws))
      && counts[i] == FloorOf(n, ws[i], Sum(ws)) + (if RankOf(fs, rows[i]) < remaining then 1 else 0)
  {
    RanksOfRows(weighted, rows, fs, remaining, assignments);
    assert IsFractionOf(n, Sum(WeightsOf(weighted)), weighted[i], rows[i]);
  }

  /** Sorted rows, extras to the first of them, and a list with those multiplicities: a largest-remainder
      outcome. */
  lemma OutcomeIsLargestRemainder(weighted: seq<Weighted>, n: nat, rows: seq<Fraction>, fs: seq<Fraction>,
                                  remaining: nat, assignments: seq<string>)
    requires Usable(weighted) && Sum(WeightsOf(weighted)) > 0 && FractionsOf(weighted, n, rows)
    requires Outcome(weighted, rows, fs, remaining, assignments) && |assignments| == n
    ensures OnlyNames(weighted, assignments)
    ensures LargestRemainder(n, WeightsOf(weighted), CountsIn(weighted, assignments))
  {
    OnlyKnownNames(weighted, rows, fs, remaining, assignments);
    CountsAddUp(weighted, assignments);
    var ws, counts := WeightsOf(weighted), CountsIn(weighted, assignments);
    forall i | 0 <= i < |ws|
      ensures counts[i] == FloorOf(n, ws[i], Sum(ws)) || counts[i] == FloorOf(n, ws[i], Sum(ws)) + 1
    {
      ExtraMeansRankedFirst(weighted, n, rows, fs, remaining, assignments, i);
    }
    forall i, j | 0 <= i < |ws| && 0 <= j < |ws| && HasExtra(n, ws, counts, i) && !HasExtra(n, ws, counts, j)
      ensures RemainderOf(n, ws[j], Sum(ws)) <= RemainderOf(n, ws[i], Sum(ws))
    {
      ExtraMeansRankedFirst(weighted, n, rows, fs, remaining, assignments, i);
      ExtraMeansRankedFirst(weighted, n, rows, fs, remaining, assignments, j);
      assert RankOf(fs, rows[i]) < remaining <= RankOf(fs, rows[j]);
    }
  }

  /** The orders follow a ranking of the scenarios by descending remainder. */
  ghost predicate InRankedBlocks(weighted: seq<Weighted>, n: nat, fs: seq<Fraction>, assignments: seq<string>)
    requires Sum(WeightsOf(weighted)) > 0
  {
    && |fs| == |weighted| && Descending(fs)
    && (forall i :: 0 <= i < |weighted| ==>
          exists p :: 0 <= p < |fs| && IsFractionOf(n, Sum(WeightsOf(weighted)), weighted[i], fs[p]))
    && FollowsRanking(fs, assignments)
    && forall p :: 0 <= p < |fs| ==>
         Occurrences(assignments, fs[p].name) == fs[p].floor + if p < n - Sum(FloorsOf(fs)) then 1 else 0
  }

  method TotalWeight(weighted: seq<Weighted>) returns (total: int)
    ensures total == Sum(WeightsOf(weighted))
  {
    total := 0;
    for k := 0 to |weighted|
      invariant total == Sum(WeightsOf(weighted)[..k])
    {
      total := total + weighted[k].weight;
      assert WeightsOf(weighted)[..k + 1][..k] == WeightsOf(weighted)[..k];
    }
    assert WeightsOf(weighted)[..|weighted|] == WeightsOf(weighted);
  }

  method SumFloors(fs: seq<Fraction>) returns (sum: int)
    ensures sum == Sum(FloorsOf(fs))
  {
    sum := 0;
    for k := 0 to |fs|
      invariant sum == Sum(FloorsOf(fs)[..k])
    {
      sum := sum + fs[k].floor;
      assert FloorsOf(fs)[..k + 1][..k] == FloorsOf(fs)[..k];
    }
    assert FloorsOf(fs)[..|fs|] == FloorsOf(fs);
  }

  method FractionalCounts(weighted: seq<Weighted>, n: nat, total: int)
    returns (fs: seq<Fraction>, assignedCounts: map<string, nat>)
    requires total > 0 && DistinctNames(weighted)
    ensures |fs| == |weighted| && DistinctRows(fs)
    ensures forall i :: 0 <= i < |fs| ==> IsFractionOf(n, total, weighted[i], fs[i])
    ensures Extras(fs, 0, assignedCounts)
  {
    fs, assignedCounts := [], map[];
    for k := 0 to |weighted|
      invariant |fs| == k && forall i :: 0 <= i < k ==> IsFractionOf(n, total, weighted[i], fs[i])
      invariant Extras(fs, 0, assignedCounts)
    {
      var floor := n * weighted[k].weight / total;
      fs := fs + [Fraction(weighted[k].name, floor, n * weighted[k].weight % total)];
      assignedCounts := assignedCounts[weighted[k].name := floor];
    }
  }

  method GiveExtras(fs: seq<Fraction>, remaining: nat, floors: map<string, nat>)
    returns (assignedCounts: map<string, nat>)
    requires DistinctRows(fs) && remaining <= |fs| && Extras(fs, 0, floors)
    ensures Extras(fs, remaining, assignedCounts)
  {
    assignedCounts := floors;
    for k := 0 to remaining
      invariant Extras(fs, k, assignedCounts)
    {
      assignedCounts := assignedCounts[fs[k].name := assignedCounts[fs[k].name] + 1];
    }
  }

  method Assign(weighted: seq<Weighted>, ordersCount: nat) returns (assignments: seq<string>)
    requires Usable(weighted)
    ensures Sum(WeightsOf(weighted)) > 0 && exists fs :: InRankedBlocks(weighted, ordersCount, fs, assignments)
    ensures |assignments| == ordersCount && OnlyNames(weighted, assignments)
    ensures LargestRemainder(ordersCount, WeightsOf(weighted), CountsIn(weighted, assignments))
  {
    ghost var weights := WeightsOf(weighted);
    SumPositive(weights);
    var total := TotalWeight(weighted);

    var fs, assignedCounts := FractionalCounts(weighted, ordersCount, total);
    ghost var rows := fs;
    LeftoverBound(ordersCount, weights, FloorsOf(rows));
    var floors := SumFloors(fs);
    var remaining := ordersCount - floors;
    fs := SortByRemainder(fs);
    forall p | 0 <= p < |fs|
      ensures fs[p].name in assignedCounts && assignedCounts[fs[p].name] == fs[p].floor
    {
      assert fs[p] in rows;
    }
    assignedCounts := GiveExtras(fs, remaining, assignedCounts);
    assignments := Expand(fs, remaining, assignedCounts);
    BlocksCount(fs, remaining);
    forall i | 0 <= i < |weighted|
      ensures exists p :: 0 <= p < |fs| && IsFractionOf(ordersCount, total, weighted[i], fs[p])
    {
      assert rows[i] in rows;
      assert IsFractionOf(ordersCount, total, weighted[i], fs[RankOf(fs, rows[i])]);
    }
    assert remaining == ordersCount - Sum(FloorsOf(fs));
    assert InRankedBlocks(weighted, ordersCount, fs, assignments);
    OutcomeIsLargestRemainder(weighted, ordersCount, rows, fs, remaining, assignments);
  }

  /** The whole assignment. The distribution must name an included scenario with a positive weight:
      otherwise the simulator draws at random. The counts of the result are a largest-remainder
      outcome, hence the optimum, the quota rule and monotonicity of Apportionment.dfy hold for it. */
  method AssignScenarios(distribution: map<string, int>, included: seq<string>, ordersCount: nat)
    returns (assignments: seq<string>)
    requires WeightedScenarios(distribution, included, DISTRIBUTION_MAPPING) != []
    ensures
      var ws := WeightedScenarios(distribution, included, DISTRIBUTION_MAPPING);
      && (forall w :: w in ws <==> AskedFor(distribution, included, w))
      && |assignments| == ordersCount && OnlyNames(ws, assignments)
      && Sum(WeightsOf(ws)) > 0 && (exists fs :: InRankedBlocks(ws, ordersCount, fs, assignments))
      && LargestRemainder(ordersCount, WeightsOf(ws), CountsIn(ws, assignments))
  {
    var weighted := CollectWeights(distribution, included);
    MappingIsUsable(distribution, included);
    assignments := Assign(weighted, ordersCount);
  }
}
