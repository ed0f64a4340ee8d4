/**
 The analysis of a finished panel: it takes a list of observations exactly when they match the
 planned arms one to one, pays no attention to their order, and its headline effect is the mean
 of the per-item cluster differences.
 */
module Gate0Analysis {
  import opened Wrappers
  import opened Scalars
  import opened Sorting
  import opened Collections
  import opened Gate0Plan

  datatype Source = DeterministicFixture | ProviderResult

  datatype Observation = Observation(
    manifestDigest: Text, sample: SampleId, template: Text, pairKey: PairKey, providerConfig: Text,
    source: Source, hardInvalid: bool, correct: bool)

  datatype AnalysisError =
    | MixedSources | UnexpectedObservation | DuplicateObservation | CrossedManifest
    | CrossedTemplate | CrossedPairKey | CrossedConfiguration | MissingObservation

  datatype Metrics = Metrics(arm: Arm, total: int, hardInvalid: int, success: int)

  datatype Thresholds = Thresholds(
    maxInvalidRate: real, maxInvalidSpread: real, minFullInformation: real, maxPrivateView: real,
    minIntact: real, minEffect: real, minLowerBound: real)

  datatype Report = Report(
    manifestDigest: Text, source: Source, metrics: seq<Metrics>, effect: real, clusterDiffs: seq<real>,
    lowerBound: real, passed: bool)

  function KeyOf(o: Observation): SampleId {
    o.sample
  }

  function Success(o: Observation): int {
    if !o.hardInvalid && o.correct then 1 else 0
  }

  function InArm(arm: Arm): Observation -> int {
    (o: Observation) => if o.sample.arm == arm then 1 else 0
  }

  function InvalidIn(arm: Arm): Observation -> int {
    (o: Observation) => if o.sample.arm == arm && o.hardInvalid then 1 else 0
  }

  function SuccessIn(arm: Arm): Observation -> int {
    (o: Observation) => if o.sample.arm == arm then Success(o) else 0
  }

  // Which observations are taken

  /** The first thing wrong with an observation by itself, in the order of the source's checks. */
  function Crossed(m: Manifest, o: Observation): Option<AnalysisError>
    requires o.sample in ArmsBySample(m)
  {
    var arm := ArmsBySample(m)[o.sample];
    if o.manifestDigest != m.digest then Some(CrossedManifest)
    else if o.template != arm.template then Some(CrossedTemplate)
    else if o.pairKey != arm.pairKey then Some(CrossedPairKey)
    else if o.providerConfig != m.providerConfig then Some(CrossedConfiguration)
    else None
  }

  predicate Bound(m: Manifest, o: Observation) {
    o.sample in ArmsBySample(m) && Crossed(m, o).None?
  }

  function Sources(observations: seq<Observation>): set<Source> {
    set o | o in observations :: o.source
  }

  ghost predicate Acceptable(m: Manifest, observations: seq<Observation>) {
    && |Sources(observations)| == 1
    && (forall k :: 0 <= k < |observations| ==> Bound(m, observations[k]))
    && DistinctBy(KeyOf, observations)
    && forall sample :: sample in ArmsBySample(m) ==> sample in IndexBy(KeyOf, observations)
  }

  /** One more observation is either a repeated key or extends the dictionary. */
  lemma CollectStep(observations: seq<Observation>, i: nat)
    requires i < |observations| && DistinctBy(KeyOf, observations[..i])
    ensures IndexBy(KeyOf, observations[..i + 1])
      == IndexBy(KeyOf, observations[..i])[observations[i].sample := observations[i]]
    ensures if observations[i].sample in IndexBy(KeyOf, observations[..i])
      then !DistinctBy(KeyOf, observations) else DistinctBy(KeyOf, observations[..i + 1])
  {
    var key := observations[i].sample;
    assert observations[..i + 1] == observations[..i] + [observations[i]];
    assert observations[..i + 1][..i] == observations[..i];
    IndexDomain(KeyOf, observations[..i], key);
    if key in IndexBy(KeyOf, observations[..i]) {
      var k :| 0 <= k < i && KeyOf(observations[..i][k]) == key;
      assert KeyOf(observations[k]) == KeyOf(observations[i]);
    } else {
      forall a, b | 0 <= a < b < i + 1 ensures KeyOf(observations[a]) != KeyOf(observations[b]) {
        assert KeyOf(observations[..i][a]) == KeyOf(observations[a]);
        if b < i {
          assert KeyOf(observations[..i][a]) != KeyOf(observations[..i][b]);
        }
      }
    }
  }

  /** The dictionary the source fills, observation by observation. */
  method Collect(m: Manifest, observations: seq<Observation>)
    returns (result: Result<map<SampleId, Observation>, AnalysisError>)
    ensures result.Ok? <==> Acceptable(m, observations)
    ensures result.Ok? ==> result.value == IndexBy(KeyOf, observations)
  {
    if |Sources(observations)| != 1 {
      return Err(MixedSources);
    }
    var expected := ArmsBySample(m);
    var seen: map<SampleId, Observation> := map[];
    var i := 0;
    while i < |observations|
      invariant 0 <= i <= |observations|
      invariant seen == IndexBy(KeyOf, observations[..i])
      invariant forall k :: 0 <= k < i ==> Bound(m, observations[k])
      invariant DistinctBy(KeyOf, observations[..i])
    {
      var o := observations[i];
      CollectStep(observations, i);
      if o.sample !in expected {
        return Err(UnexpectedObservation);
      }
      if o.sample in seen {
        return Err(DuplicateObservation);
      }
      var crossed := Crossed(m, o);
      if crossed.Some? {
        return Err(crossed.value);
      }
      seen := seen[o.sample := o];
      i := i + 1;
    }
    assert observations[..i] == observations;
    if exists sample :: sample in expected && sample !in seen {
      return Err(MissingObservation);
    }
    result := Ok(seen);
  }

  // The report

  function ArmMetrics(observations: seq<Observation>, arm: Arm): Metrics {
    Metrics(arm, SumBy(InArm(arm), observations), SumBy(InvalidIn(arm), observations),
            SumBy(SuccessIn(arm), observations))
  }

  function AllMetrics(observations: seq<Observation>): (metrics: seq<Metrics>)
    ensures |metrics| == 5 && forall a :: 0 <= a < 5 ==> metrics[a] == ArmMetrics(observations, ARMS[a])
  {
    seq(5, a requires 0 <= a < 5 => ArmMetrics(observations, ARMS[a]))
  }

  function Rate(count: int, total: int): real {
    if total == 0 then 0.0 else count as real / total as real
  }

  /** One item's successes in one arm over the replicates `0..n`. */
  function ItemSuccess(panel: Text, seen: map<SampleId, Observation>, item: Text, arm: Arm, n: nat): int {
    if n == 0 then 0
    else ItemSuccess(panel, seen, item, arm, n - 1) + CellSuccess(seen, Sample(panel, item, n - 1, arm))
  }

  function CellSuccess(seen: map<SampleId, Observation>, sample: SampleId): int {
    if sample in seen then Success(seen[sample]) else 0
  }

  /** The mean over replicates of intact minus neutral success. */
  function ClusterDiff(panel: Text, seen: map<SampleId, Observation>, item: Text): real {
    (ItemSuccess(panel, seen, item, IntactExchange, REPLICATES)
     - ItemSuccess(panel, seen, item, MatchedNeutral, REPLICATES)) as real / REPLICATES as real
  }

  function ClusterDiffs(panel: Text, seen: map<SampleId, Observation>, items: seq<Item>): (ds: seq<real>)
    ensures |ds| == |items|
    ensures forall i :: 0 <= i < |items| ==> ds[i] == ClusterDiff(panel, seen, items[i].id)
  {
    seq(|items|, i requires 0 <= i < |items| => ClusterDiff(panel, seen, items[i].id))
  }

  function RealTotal(xs: seq<real>): real {
    if xs == [] then 0.0 else RealTotal(xs[..|xs| - 1]) + xs[|xs| - 1]
  }

  function Mean(xs: seq<real>): real {
    if xs == [] then 0.0 else RealTotal(xs) / |xs| as real
  }

  function Max5(rates: seq<real>): real
    requires |rates| == 5
  {
    MaxOf(rates[0], MaxOf(rates[1], MaxOf(rates[2], MaxOf(rates[3], rates[4]))))
  }

  function Min5(rates: seq<real>): real
    requires |rates| == 5
  {
    MinOf(rates[0], MinOf(rates[1], MinOf(rates[2], MinOf(rates[3], rates[4]))))
  }

  function MaxOf(a: real, b: real): real {
    if a > b then a else b
  }

  function MinOf(a: real, b: real): real {
    if a < b then a else b
  }

  /** The critical value of the one-sided bound. */
  const T_CRITICAL: real := 1.695518789136255

  /** Every threshold met; the standard error of the cluster differences is given. */
  function Passes(t: Thresholds, metrics: seq<Metrics>, effect: real, lowerBound: real): bool
    requires |metrics| == 5
  {
    var invalid := seq(5, i requires 0 <= i < 5 => Rate(metrics[i].hardInvalid, metrics[i].total));
    var rate := (i: nat) requires i < 5 => Rate(metrics[i].success, metrics[i].total);
    && Max5(invalid) <= t.maxInvalidRate && Max5(invalid) - Min5(invalid) <= t.maxInvalidSpread
    && rate(4) >= t.minFullInformation && rate(2) <= t.maxPrivateView && rate(3) <= t.maxPrivateView
    && rate(0) >= t.minIntact && effect >= t.minEffect && lowerBound > t.minLowerBound
  }

  function Summarize(
      m: Manifest, t: Thresholds, standardError: seq<real> -> real,
      observations: seq<Observation>, seen: map<SampleId, Observation>, source: Source): Report
  {
    Conclude(m, t, standardError, AllMetrics(observations), ClusterDiffs(m.panel, seen, m.items), source)
  }

  /** The report, from the arms' metrics and the items' differences. */
  function Conclude(
      m: Manifest, t: Thresholds, standardError: seq<real> -> real, metrics: seq<Metrics>, diffs: seq<real>,
      source: Source): Report
    requires |metrics| == 5
  {
    var effect := Rate(metrics[0].success, metrics[0].total) - Rate(metrics[1].success, metrics[1].total);
    var mean := Mean(diffs);
    var lowerBound := if |diffs| < 2 then mean else mean - T_CRITICAL * standardError(diffs);
    Report(m.digest, source, metrics, effect, diffs, lowerBound, Passes(t, metrics, effect, lowerBound))
  }

  /** The whole analysis as a function of the observations. */
  ghost function Analyze(
      m: Manifest, t: Thresholds, standardError: seq<real> -> real, observations: seq<Observation>): Option<Report>
  {
    if Acceptable(m, observations) then
      Some(Summarize(m, t, standardError, observations, IndexBy(KeyOf, observations), OnlySource(observations)))
    else None
  }

  function OnlySource(observations: seq<Observation>): Source {
    if DeterministicFixture in Sources(observations) then DeterministicFixture else ProviderResult
  }

  // The analysis as it is carried out

  function Invalid(o: Observation): int {
    if o.hardInvalid then 1 else 0
  }

  /** The observations of one arm, in order. */
  function Members(arm: Arm, observations: seq<Observation>): seq<Observation> {
    if observations == [] then []
    else
      Members(arm, observations[..|observations| - 1])
      + if observations[|observations| - 1].sample.arm == arm then [observations[|observations| - 1]] else []
  }

  lemma {:induction false} MembersSum(arm: Arm, f: Observation -> int, g: Observation -> int, observations: seq<Observation>)
    requires forall o :: g(o) == if o.sample.arm == arm then f(o) else 0
    ensures SumBy(f, Members(arm, observations)) == SumBy(g, observations)
  {
    if observations != [] {
      var n := |observations| - 1;
      MembersSum(arm, f, g, observations[..n]);
      if observations[n].sample.arm == arm {
        SumByAppend(f, Members(arm, observations[..n]), [observations[n]]);
        SumByOne(f, observations[n]);
      } else {
        assert Members(arm, observations) == Members(arm, observations[..n]);
      }
    }
  }

  lemma {:induction false} MembersCount(arm: Arm, observations: seq<Observation>)
    ensures |Members(arm, observations)| == SumBy(InArm(arm), observations)
  {
    if observations != [] {
      MembersCount(arm, observations[..|observations| - 1]);
    }
  }

  method CountArm(arm: Arm, members: seq<Observation>) returns (metrics: Metrics)
    ensures metrics == Metrics(arm, |members|, SumBy(Invalid, members), SumBy(Success, members))
  {
    var invalid, success := 0, 0;
    for i := 0 to |members|
      invariant invalid == SumBy(Invalid, members[..i]) && success == SumBy(Success, members[..i])
    {
      assert members[..i + 1][..i] == members[..i];
      invalid, success := invalid + Invalid(members[i]), success + Success(members[i]);
    }
    assert members[..|members|] == members;
    metrics := Metrics(arm, |members|, invalid, success);
  }

  /** Sorts the observations by arm, and then counts each arm's. */
  method TallyArms(observations: seq<Observation>) returns (metrics: seq<Metrics>)
    ensures metrics == AllMetrics(observations)
  {
    var byArm: map<Arm, seq<Observation>> :=
      map[IntactExchange := [], MatchedNeutral := [], PrivateAOnly := [], PrivateBOnly := [], FullInformation := []];
    forall arm: Arm ensures arm in byArm && byArm[arm] == [] {
      match arm
      case IntactExchange =>
      case MatchedNeutral =>
      case PrivateAOnly =>
      case PrivateBOnly =>
      case FullInformation =>
    }
    for i := 0 to |observations|
      invariant forall arm: Arm :: arm in byArm && byArm[arm] == Members(arm, observations[..i])
    {
      var o := observations[i];
      assert observations[..i + 1][..i] == observations[..i];
      byArm := byArm[o.sample.arm := byArm[o.sample.arm] + [o]];
    }
    assert observations[..|observations|] == observations;
    metrics := [];
    for a := 0 to 5
      invariant |metrics| == a && forall b :: 0 <= b < a ==> metrics[b] == ArmMetrics(observations, ARMS[b])
    {
      MembersCount(ARMS[a], observations);
      MembersSum(ARMS[a], Invalid, InvalidIn(ARMS[a]), observations);
      MembersSum(ARMS[a], Success, SuccessIn(ARMS[a]), observations);
      var counted := CountArm(ARMS[a], byArm[ARMS[a]]);
      metrics := metrics + [counted];
    }
  }

  /** For each item, over its replicates, the mean of intact minus neutral success. */
  method DiffClusters(panel: Text, seen: map<SampleId, Observation>, items: seq<Item>) returns (diffs: seq<real>)
    ensures diffs == ClusterDiffs(panel, seen, items)
  {
    diffs := [];
    for i := 0 to |items|
      invariant |diffs| == i && forall j :: 0 <= j < i ==> diffs[j] == ClusterDiff(panel, seen, items[j].id)
    {
      var total := 0;
      for r := 0 to REPLICATES
        invariant total == ItemSuccess(panel, seen, items[i].id, IntactExchange, r)
                         - ItemSuccess(panel, seen, items[i].id, MatchedNeutral, r)
      {
        total := total + CellSuccess(seen, Sample(panel, items[i].id, r, IntactExchange))
                 - CellSuccess(seen, Sample(panel, items[i].id, r, MatchedNeutral));
      }
      diffs := diffs + [total as real / REPLICATES as real];
    }
  }

  method AnalyzeObservations(
      m: Manifest, t: Thresholds, standardError: seq<real> -> real, observations: seq<Observation>)
    returns (result: Result<Report, AnalysisError>)
    ensures result.Ok? <==> Analyze(m, t, standardError, observations).Some?
    ensures result.Ok? ==> Analyze(m, t, standardError, observations) == Some(result.value)
  {
    var seen :- Collect(m, observations);
    var metrics := TallyArms(observations);
    var diffs := DiffClusters(m.panel, seen, m.items);
    result := Ok(Conclude(m, t, standardError, metrics, diffs, OnlySource(observations)));
  }

  // Exactly the bijections are taken

  function Keys(observations: seq<Observation>): (keys: seq<SampleId>)
    ensures |keys| == |observations| && forall i :: 0 <= i < |keys| ==> keys[i] == observations[i].sample
  {
    seq(|observations|, i requires 0 <= i < |observations| => observations[i].sample)
  }

  function Samples(arms: seq<ArmPlan>): (keys: seq<SampleId>)
    ensures |keys| == |arms| && forall i :: 0 <= i < |keys| ==> keys[i] == arms[i].sample
  {
    seq(|arms|, i requires 0 <= i < |arms| => arms[i].sample)
  }

  /** Same-source observations bound to the manifest are taken exactly when they match the arms one to one. */
  lemma AcceptsExactlyBijections(m: Manifest, observations: seq<Observation>)
    requires ValidManifest(m) && |Sources(observations)| == 1
    requires forall k :: 0 <= k < |observations| ==> Bound(m, observations[k])
    ensures Acceptable(m, observations) <==> multiset(Keys(observations)) == multiset(Samples(m.arms))
  {
    forall i, j | 0 <= i < j < |m.arms| ensures Samples(m.arms)[i] != Samples(m.arms)[j] {
      DistinctKeys(SampleOf, m.arms, i, j);
    }
    if Acceptable(m, observations) {
      AcceptedIsBijection(m, observations);
    }
    if multiset(Keys(observations)) == multiset(Samples(m.arms)) {
      BijectionIsAccepted(m, observations);
    }
  }

  lemma AcceptedIsBijection(m: Manifest, observations: seq<Observation>)
    requires Acceptable(m, observations) && Distinct(Samples(m.arms))
    ensures multiset(Keys(observations)) == multiset(Samples(m.arms))
  {
    forall i, j | 0 <= i < j < |observations| ensures Keys(observations)[i] != Keys(observations)[j] {
      DistinctKeys(KeyOf, observations, i, j);
    }
    forall x ensures x in Keys(observations) <==> x in Samples(m.arms) {
      ExpectedSamples(m, x);
      ObservedSamples(observations, x);
      if x in Keys(observations) {
        var i :| 0 <= i < |observations| && Keys(observations)[i] == x;
        assert Bound(m, observations[i]);
      }
    }
    SameMembersSameMultiset(Keys(observations), Samples(m.arms));
  }

  lemma BijectionIsAccepted(m: Manifest, observations: seq<Observation>)
    requires |Sources(observations)| == 1 && Distinct(Samples(m.arms))
    requires forall k :: 0 <= k < |observations| ==> Bound(m, observations[k])
    requires multiset(Keys(observations)) == multiset(Samples(m.arms))
    ensures Acceptable(m, observations)
  {
    PermutationKeepsDistinct(Samples(m.arms), Keys(observations));
    forall i, j | 0 <= i < j < |observations| ensures KeyOf(observations[i]) != KeyOf(observations[j]) {
      assert Keys(observations)[i] != Keys(observations)[j];
    }
    forall x | x in ArmsBySample(m) ensures x in IndexBy(KeyOf, observations) {
      ExpectedSamples(m, x);
      assert x in multiset(Keys(observations));
      ObservedSamples(observations, x);
    }
  }

  lemma ObservedSamples(observations: seq<Observation>, x: SampleId)
    ensures x in IndexBy(KeyOf, observations) <==> x in Keys(observations)
  {
    IndexDomain(KeyOf, observations, x);
    if x in Keys(observations) {
      var i :| 0 <= i < |observations| && Keys(observations)[i] == x;
      assert KeyOf(observations[i]) == x;
    }
    if i :| 0 <= i < |observations| && KeyOf(observations[i]) == x {
      assert Keys(observations)[i] == x;
    }
  }

  lemma ExpectedSamples(m: Manifest, x: SampleId)
    ensures x in ArmsBySample(m) <==> x in Samples(m.arms)
  {
    IndexDomain(SampleOf, m.arms, x);
    if x in Samples(m.arms) {
      var i :| 0 <= i < |m.arms| && Samples(m.arms)[i] == x;
      assert SampleOf(m.arms[i]) == x;
    }
    if i :| 0 <= i < |m.arms| && SampleOf(m.arms[i]) == x {
      assert Samples(m.arms)[i] == x;
    }
  }
}
