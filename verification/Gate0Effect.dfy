/**
 Two laws of the panel analysis: the reported effect is the mean of the per-item cluster
 differences, and the whole report is the same for every ordering of the observations.
 */
module Gate0Effect {
  import opened Wrappers
  import opened Scalars
  import opened Sorting
  import opened Collections
  import opened Gate0Plan
  import opened Gate0Analysis

  // Every planned sample, item by item and replicate by replicate

  function Cell(panel: Text, item: Text, replicate: nat): (cell: seq<SampleId>)
    ensures |cell| == 5 && forall a :: 0 <= a < 5 ==> cell[a] == Sample(panel, item, replicate, ARMS[a])
  {
    [Sample(panel, item, replicate, IntactExchange), Sample(panel, item, replicate, MatchedNeutral),
     Sample(panel, item, replicate, PrivateAOnly), Sample(panel, item, replicate, PrivateBOnly),
     Sample(panel, item, replicate, FullInformation)]
  }

  function ItemGrid(panel: Text, item: Text, n: nat): seq<SampleId> {
    if n == 0 then [] else ItemGrid(panel, item, n - 1) + Cell(panel, item, n - 1)
  }

  function Grid(panel: Text, items: seq<Item>): seq<SampleId> {
    if items == [] then []
    else Grid(panel, items[..|items| - 1]) + ItemGrid(panel, items[|items| - 1].id, REPLICATES)
  }

  lemma CellMembers(panel: Text, item: Text, replicate: nat, x: SampleId)
    ensures x in Cell(panel, item, replicate) <==> x == Sample(panel, item, replicate, x.arm)
  {
    var a := ArmPosition(x.arm);
    assert Cell(panel, item, replicate)[a] == Sample(panel, item, replicate, ARMS[a]);
  }

  lemma {:induction false} ItemGridMembers(panel: Text, item: Text, n: nat, x: SampleId)
    ensures x in ItemGrid(panel, item, n) <==> x.panel == panel && x.item == item && x.replicate < n
  {
    if n > 0 {
      ItemGridMembers(panel, item, n - 1, x);
      CellMembers(panel, item, n - 1, x);
    }
  }

  ghost predicate Named(items: seq<Item>, id: Text) {
    exists i :: 0 <= i < |items| && items[i].id == id
  }

  lemma NamedByLast(items: seq<Item>, id: Text)
    requires items != []
    ensures Named(items, id) <==> Named(items[..|items| - 1], id) || items[|items| - 1].id == id
  {
    var n := |items| - 1;
    if i :| 0 <= i < n && items[..n][i].id == id {
      assert items[i].id == id;
    }
    if i :| 0 <= i < |items| && items[i].id == id && i < n {
      assert items[..n][i].id == id;
    }
  }

  lemma {:induction false} GridMembers(panel: Text, items: seq<Item>, x: SampleId)
    ensures x in Grid(panel, items) <==> x.panel == panel && x.replicate < REPLICATES && Named(items, x.item)
  {
    if items != [] {
      var n := |items| - 1;
      GridMembers(panel, items[..n], x);
      ItemGridMembers(panel, items[n].id, REPLICATES, x);
      NamedByLast(items, x.item);
    }
  }

  lemma DistinctAppend<T>(xs: seq<T>, ys: seq<T>)
    requires Distinct(xs) && Distinct(ys) && forall x :: x in xs ==> x !in ys
    ensures Distinct(xs + ys)
  {
    forall i, j | 0 <= i < j < |xs + ys| ensures (xs + ys)[i] != (xs + ys)[j] {
      if i < |xs| <= j {
        assert xs[i] in xs && ys[j - |xs|] in ys;
      }
    }
  }

  lemma CellDistinct(panel: Text, item: Text, replicate: nat)
    ensures Distinct(Cell(panel, item, replicate))
  {
    forall i, j | 0 <= i < j < 5 ensures Cell(panel, item, replicate)[i] != Cell(panel, item, replicate)[j] {
      ArmsDiffer(i, j);
    }
  }

  lemma CellIsNew(panel: Text, item: Text, n: nat, x: SampleId)
    ensures x in ItemGrid(panel, item, n) ==> x !in Cell(panel, item, n)
  {
    ItemGridMembers(panel, item, n, x);
    CellMembers(panel, item, n, x);
  }

  lemma {:induction false} ItemGridDistinct(panel: Text, item: Text, n: nat)
    ensures Distinct(ItemGrid(panel, item, n))
  {
    if n > 0 {
      ItemGridDistinct(panel, item, n - 1);
      var before, cell := ItemGrid(panel, item, n - 1), Cell(panel, item, n - 1);
      CellDistinct(panel, item, n - 1);
      forall x | x in before ensures x !in cell {
        CellIsNew(panel, item, n - 1, x);
      }
      DistinctAppend(before, cell);
    }
  }

  lemma {:induction false} GridDistinct(panel: Text, items: seq<Item>)
    requires DistinctBy(ItemId, items)
    ensures Distinct(Grid(panel, items))
  {
    if items != [] {
      var n := |items| - 1;
      GridDistinct(panel, items[..n]);
      ItemGridDistinct(panel, items[n].id, REPLICATES);
      forall x | x in Grid(panel, items[..n]) ensures x !in ItemGrid(panel, items[n].id, REPLICATES) {
        GridMembers(panel, items[..n], x);
        ItemGridMembers(panel, items[n].id, REPLICATES, x);
        var i :| 0 <= i < n && items[..n][i].id == x.item;
        assert ItemId(items[i]) != ItemId(items[n]);
      }
      DistinctAppend(Grid(panel, items[..n]), ItemGrid(panel, items[n].id, REPLICATES));
    }
  }

  /** Accepted observations are keyed by exactly the planned grid. */
  lemma AcceptedKeysAreTheGrid(m: Manifest, observations: seq<Observation>)
    requires ValidManifest(m) && Acceptable(m, observations)
    ensures multiset(Keys(observations)) == multiset(Grid(m.panel, m.items))
  {
    forall i, j | 0 <= i < j < |observations| ensures Keys(observations)[i] != Keys(observations)[j] {
      DistinctKeys(KeyOf, observations, i, j);
    }
    GridDistinct(m.panel, m.items);
    forall x ensures x in Keys(observations) <==> x in Grid(m.panel, m.items) {
      GridMembers(m.panel, m.items, x);
      ObservedSamples(observations, x);
      PlannedIsExpected(m, x);
      if x in Keys(observations) {
        var i :| 0 <= i < |observations| && Keys(observations)[i] == x;
        assert Bound(m, observations[i]);
      }
    }
    SameMembersSameMultiset(Keys(observations), Grid(m.panel, m.items));
  }

  lemma PlannedIsExpected(m: Manifest, x: SampleId)
    requires ValidManifest(m)
    ensures x in ArmsBySample(m) <==> Planned(m, x)
  {
    IndexDomain(SampleOf, m.arms, x);
    if i :| 0 <= i < |m.arms| && SampleOf(m.arms[i]) == x {
      assert Planned(m, m.arms[i].sample);
    }
  }

  // Sums over the grid

  function OneIn(arm: Arm): SampleId -> int {
    (x: SampleId) => if x.arm == arm then 1 else 0
  }

  function CellIn(seen: map<SampleId, Observation>, arm: Arm): SampleId -> int {
    (x: SampleId) => if x.arm == arm then CellSuccess(seen, x) else 0
  }

  lemma {:induction false} SumByKeys(
      f: Observation -> int, g: SampleId -> int, observations: seq<Observation>)
    requires forall k :: 0 <= k < |observations| ==> f(observations[k]) == g(observations[k].sample)
    ensures SumBy(f, observations) == SumBy(g, Keys(observations))
  {
    if observations != [] {
      var n := |observations| - 1;
      SumByKeys(f, g, observations[..n]);
      assert Keys(observations)[..n] == Keys(observations[..n]);
    }
  }

  lemma SumByCell(g: SampleId -> int, panel: Text, item: Text, replicate: nat)
    ensures SumBy(g, Cell(panel, item, replicate))
      == g(Sample(panel, item, replicate, IntactExchange)) + g(Sample(panel, item, replicate, MatchedNeutral))
       + g(Sample(panel, item, replicate, PrivateAOnly)) + g(Sample(panel, item, replicate, PrivateBOnly))
       + g(Sample(panel, item, replicate, FullInformation))
  {
    var cell := Cell(panel, item, replicate);
    assert cell == [cell[0]] + [cell[1]] + [cell[2]] + [cell[3]] + [cell[4]];
    SumByAppend(g, [cell[0]] + [cell[1]] + [cell[2]] + [cell[3]], [cell[4]]);
    SumByAppend(g, [cell[0]] + [cell[1]] + [cell[2]], [cell[3]]);
    SumByAppend(g, [cell[0]] + [cell[1]], [cell[2]]);
    SumByAppend(g, [cell[0]], [cell[1]]);
    SumByOne(g, cell[0]);
    SumByOne(g, cell[1]);
    SumByOne(g, cell[2]);
    SumByOne(g, cell[3]);
    SumByOne(g, cell[4]);
  }

  lemma OneCell(panel: Text, seen: map<SampleId, Observation>, item: Text, arm: Arm, replicate: nat)
    ensures SumBy(CellIn(seen, arm), Cell(panel, item, replicate)) == CellSuccess(seen, Sample(panel, item, replicate, arm))
    ensures SumBy(OneIn(arm), Cell(panel, item, replicate)) == 1
  {
    SumByCell(CellIn(seen, arm), panel, item, replicate);
    SumByCell(OneIn(arm), panel, item, replicate);
  }

  lemma {:induction false} ItemGridSuccess(panel: Text, seen: map<SampleId, Observation>, item: Text, arm: Arm, n: nat)
    ensures SumBy(CellIn(seen, arm), ItemGrid(panel, item, n)) == ItemSuccess(panel, seen, item, arm, n)
    ensures SumBy(OneIn(arm), ItemGrid(panel, item, n)) == n
  {
    if n > 0 {
      ItemGridSuccess(panel, seen, item, arm, n - 1);
      SumByAppend(CellIn(seen, arm), ItemGrid(panel, item, n - 1), Cell(panel, item, n - 1));
      SumByAppend(OneIn(arm), ItemGrid(panel, item, n - 1), Cell(panel, item, n - 1));
      OneCell(panel, seen, item, arm, n - 1);
    }
  }

  /** The successes of one arm over all items. */
  function ArmSuccess(panel: Text, seen: map<SampleId, Observation>, items: seq<Item>, arm: Arm): int {
    if items == [] then 0
    else ArmSuccess(panel, seen, items[..|items| - 1], arm)
         + ItemSuccess(panel, seen, items[|items| - 1].id, arm, REPLICATES)
  }

  lemma {:induction false} GridSuccess(panel: Text, seen: map<SampleId, Observation>, items: seq<Item>, arm: Arm)
    ensures SumBy(CellIn(seen, arm), Grid(panel, items)) == ArmSuccess(panel, seen, items, arm)
    ensures SumBy(OneIn(arm), Grid(panel, items)) == REPLICATES * |items|
  {
    if items != [] {
      var n := |items| - 1;
      GridSuccess(panel, seen, items[..n], arm);
      ItemGridSuccess(panel, seen, items[n].id, arm, REPLICATES);
      SumByAppend(CellIn(seen, arm), Grid(panel, items[..n]), ItemGrid(panel, items[n].id, REPLICATES));
      SumByAppend(OneIn(arm), Grid(panel, items[..n]), ItemGrid(panel, items[n].id, REPLICATES));
    }
  }

  /** An accepted list holds every arm's four replicates of every item, and its successes are the items'. */
  lemma AcceptedArmTotals(m: Manifest, observations: seq<Observation>, arm: Arm)
    requires ValidManifest(m) && Acceptable(m, observations)
    ensures ArmMetrics(observations, arm).total == REPLICATES * |m.items|
    ensures ArmMetrics(observations, arm).success
      == ArmSuccess(m.panel, IndexBy(KeyOf, observations), m.items, arm)
  {
    var seen := IndexBy(KeyOf, observations);
    forall k | 0 <= k < |observations|
      ensures SuccessIn(arm)(observations[k]) == CellIn(seen, arm)(observations[k].sample)
    {
      IndexContent(KeyOf, observations, k);
    }
    SumByKeys(SuccessIn(arm), CellIn(seen, arm), observations);
    SumByKeys(InArm(arm), OneIn(arm), observations);
    AcceptedKeysAreTheGrid(m, observations);
    SumByPermutation(CellIn(seen, arm), Keys(observations), Grid(m.panel, m.items));
    SumByPermutation(OneIn(arm), Keys(observations), Grid(m.panel, m.items));
    GridSuccess(m.panel, seen, m.items, arm);
  }

  // The effect

  lemma {:induction false} DiffsTotal(panel: Text, seen: map<SampleId, Observation>, items: seq<Item>)
    ensures RealTotal(ClusterDiffs(panel, seen, items))
      == (ArmSuccess(panel, seen, items, IntactExchange) - ArmSuccess(panel, seen, items, MatchedNeutral)) as real / 4.0
  {
    if items != [] {
      var n := |items| - 1;
      DiffsTotal(panel, seen, items[..n]);
      assert ClusterDiffs(panel, seen, items)[..n] == ClusterDiffs(panel, seen, items[..n]);
    }
  }

  lemma RateDifference(x: int, y: int, n: nat)
    requires n > 0
    ensures Rate(x, 4 * n) - Rate(y, 4 * n) == (x - y) as real / 4.0 / n as real
  {
    var d := n as real;
    assert (4 * n) as real == 4.0 * d;
    Quarter(x as real, d);
    Quarter(y as real, d);
    assert (x - y) as real / 4.0 == x as real / 4.0 - y as real / 4.0;
    SplitFraction(x as real / 4.0, y as real / 4.0, d);
  }

  lemma MeanOfRates(x: int, y: int, diffs: seq<real>)
    requires diffs != [] && RealTotal(diffs) == (x - y) as real / 4.0
    ensures Rate(x, 4 * |diffs|) - Rate(y, 4 * |diffs|) == Mean(diffs)
  {
    RateDifference(x, y, |diffs|);
  }

  lemma Quarter(x: real, d: real)
    requires d > 0.0
    ensures x / (4.0 * d) == x / 4.0 / d
  {
    var q := x / 4.0 / d;
    assert q * d == x / 4.0;
    assert q * (4.0 * d) == 4.0 * (q * d) == x;
  }

  lemma SplitFraction(x: real, y: real, d: real)
    requires d > 0.0
    ensures (x - y) / d == x / d - y / d
  {
  }

  lemma AnalysisOf(m: Manifest, t: Thresholds, standardError: seq<real> -> real, observations: seq<Observation>)
    requires Acceptable(m, observations)
    ensures Analyze(m, t, standardError, observations).Some?
    ensures var report := Analyze(m, t, standardError, observations).value;
      && report.clusterDiffs == ClusterDiffs(m.panel, IndexBy(KeyOf, observations), m.items)
      && report.effect == Rate(AllMetrics(observations)[0].success, AllMetrics(observations)[0].total)
                          - Rate(AllMetrics(observations)[1].success, AllMetrics(observations)[1].total)
  {
  }

  /** The intact-minus-neutral rate difference is the mean of the per-item cluster differences. */
  lemma EffectIsClusterMean(
      m: Manifest, t: Thresholds, standardError: seq<real> -> real, observations: seq<Observation>)
    requires ValidManifest(m) && Acceptable(m, observations)
    ensures Analyze(m, t, standardError, observations).Some?
    ensures Analyze(m, t, standardError, observations).value.clusterDiffs
      == ClusterDiffs(m.panel, IndexBy(KeyOf, observations), m.items)
    ensures Analyze(m, t, standardError, observations).value.effect
      == Mean(Analyze(m, t, standardError, observations).value.clusterDiffs)
  {
    AnalysisOf(m, t, standardError, observations);
    var metrics := AllMetrics(observations);
    assert metrics[0] == ArmMetrics(observations, ARMS[0]) && metrics[1] == ArmMetrics(observations, ARMS[1]);
    RatesDifferByMean(m, observations);
  }

  lemma RatesDifferByMean(m: Manifest, observations: seq<Observation>)
    requires ValidManifest(m) && Acceptable(m, observations)
    ensures var intact, neutral := ArmMetrics(observations, IntactExchange), ArmMetrics(observations, MatchedNeutral);
      Rate(intact.success, intact.total) - Rate(neutral.success, neutral.total)
      == Mean(ClusterDiffs(m.panel, IndexBy(KeyOf, observations), m.items))
  {
    var seen := IndexBy(KeyOf, observations);
    AcceptedArmTotals(m, observations, IntactExchange);
    AcceptedArmTotals(m, observations, MatchedNeutral);
    DiffsTotal(m.panel, seen, m.items);
    MeanOfRates(ArmSuccess(m.panel, seen, m.items, IntactExchange),
                ArmSuccess(m.panel, seen, m.items, MatchedNeutral), ClusterDiffs(m.panel, seen, m.items));
  }

  // Order does not matter

  lemma PermutationKeepsAcceptable(m: Manifest, xs: seq<Observation>, ys: seq<Observation>)
    requires Acceptable(m, xs) && multiset(xs) == multiset(ys)
    ensures Acceptable(m, ys)
  {
    SameSources(xs, ys);
    PermutationKeepsDistinctBy(KeyOf, xs, ys);
    forall k | 0 <= k < |ys| ensures Bound(m, ys[k]) {
      assert ys[k] in multiset(xs);
    }
    SameIndex(xs, ys);
  }

  lemma SameSources(xs: seq<Observation>, ys: seq<Observation>)
    requires multiset(xs) == multiset(ys)
    ensures Sources(xs) == Sources(ys)
  {
    forall o ensures o in xs <==> o in ys {
      assert o in multiset(xs) <==> o in multiset(ys);
    }
  }

  lemma SameIndex(xs: seq<Observation>, ys: seq<Observation>)
    requires DistinctBy(KeyOf, xs) && DistinctBy(KeyOf, ys) && multiset(xs) == multiset(ys)
    ensures IndexBy(KeyOf, xs) == IndexBy(KeyOf, ys)
  {
    forall x ensures x in IndexBy(KeyOf, xs) ==> x in IndexBy(KeyOf, ys) && IndexBy(KeyOf, ys)[x] == IndexBy(KeyOf, xs)[x] {
      IndexCarriesOver(xs, ys, x);
    }
    forall x ensures x in IndexBy(KeyOf, ys) ==> x in IndexBy(KeyOf, xs) {
      IndexCarriesOver(ys, xs, x);
    }
  }

  lemma IndexCarriesOver(xs: seq<Observation>, ys: seq<Observation>, x: SampleId)
    requires DistinctBy(KeyOf, ys) && multiset(xs) == multiset(ys)
    ensures x in IndexBy(KeyOf, xs) ==> x in IndexBy(KeyOf, ys) && IndexBy(KeyOf, ys)[x] == IndexBy(KeyOf, xs)[x]
  {
    if x in IndexBy(KeyOf, xs) {
      IndexDomain(KeyOf, xs, x);
      assert IndexBy(KeyOf, xs)[x] in multiset(ys);
      var j :| 0 <= j < |ys| && ys[j] == IndexBy(KeyOf, xs)[x];
      IndexContent(KeyOf, ys, j);
    }
  }

  lemma SameArmMetrics(xs: seq<Observation>, ys: seq<Observation>, arm: Arm)
    requires multiset(xs) == multiset(ys)
    ensures ArmMetrics(xs, arm) == ArmMetrics(ys, arm)
  {
    SumByPermutation(InArm(arm), xs, ys);
    SumByPermutation(InvalidIn(arm), xs, ys);
    SumByPermutation(SuccessIn(arm), xs, ys);
  }

  lemma SameMetrics(xs: seq<Observation>, ys: seq<Observation>)
    requires multiset(xs) == multiset(ys)
    ensures AllMetrics(xs) == AllMetrics(ys)
  {
    forall a | 0 <= a < 5 ensures AllMetrics(xs)[a] == AllMetrics(ys)[a] {
      SameArmMetrics(xs, ys, ARMS[a]);
    }
  }

  lemma SameSummary(
      m: Manifest, t: Thresholds, standardError: seq<real> -> real, xs: seq<Observation>, ys: seq<Observation>,
      seen: map<SampleId, Observation>, source: Source)
    requires AllMetrics(xs) == AllMetrics(ys)
    ensures Summarize(m, t, standardError, xs, seen, source) == Summarize(m, t, standardError, ys, seen, source)
  {
  }

  /** Rearranging the observations changes neither the verdict nor the report. */
  lemma AnalysisIgnoresOrder(
      m: Manifest, t: Thresholds, standardError: seq<real> -> real, xs: seq<Observation>, ys: seq<Observation>)
    requires multiset(xs) == multiset(ys)
    ensures Analyze(m, t, standardError, xs) == Analyze(m, t, standardError, ys)
  {
    if Acceptable(m, xs) {
      PermutationKeepsAcceptable(m, xs, ys);
      SameSources(xs, ys);
      SameIndex(xs, ys);
      SameMetrics(xs, ys);
      SameSummary(m, t, standardError, xs, ys, IndexBy(KeyOf, xs), OnlySource(xs));
    } else if Acceptable(m, ys) {
      PermutationKeepsAcceptable(m, ys, xs);
    }
  }
}
