/**
 When every run on a manifest replays. Arm files are named by rank and then by a tag hashed from
 the sample; replay reads them in name order and expects the order in which the arms were produced.
 Ranks follow the schedule, so all turns on the tags of samples whose ranks tie, and a manifest
 shows before any run whether it is safe.
 */
module Gate0Ties {
  import opened Wrappers
  import opened Scalars
  import opened Sorting
  import opened Collections
  import opened EvidenceFiles
  import opened Gate0Plan
  import opened Gate0Run
  import opened Gate0Safety
  import opened Gate0Results
  import opened Gate0Replay
  import opened Gate0Liveness
  import opened Gate0Executors
  import Analysis = Gate0Analysis

  // Names along the schedule

  function SampleName(m: Manifest, tag: SampleId -> Bytes, x: SampleId): Bytes {
    if x in ArmsBySample(m) then NumberedName(20, ArmsBySample(m)[x].rank, tag(x)) else []
  }

  /** The names of the arm files ascend along the schedule's responders. */
  ghost predicate NamesRise(m: Manifest, tag: SampleId -> Bytes) {
    var samples := ResponderSamples(m.schedule);
    forall i, j :: 0 <= i < j < |samples| ==> Before(SampleName(m, tag, samples[i]), SampleName(m, tag, samples[j]))
  }

  lemma {:induction false} RespondersOfPrefix(ids: seq<CallId>, n: nat)
    requires n <= |ids|
    ensures |ResponderSamples(ids[..n])| <= |ResponderSamples(ids)|
    ensures ResponderSamples(ids[..n]) == ResponderSamples(ids)[..|ResponderSamples(ids[..n])|]
    decreases |ids|
  {
    if n < |ids| {
      RespondersOfPrefix(ids[..|ids| - 1], n);
      assert ids[..|ids| - 1][..n] == ids[..n];
    } else {
      assert ids[..n] == ids;
    }
  }

  /** The arms of any run are produced in the order of the schedule's responders. */
  lemma ArmsAlongSchedule(c: Setting)
    requires Ready(c)
    ensures |Execute(c).arms| <= |ResponderSamples(c.manifest.schedule)|
    ensures forall i :: 0 <= i < |Execute(c).arms| ==>
      Execute(c).arms[i].sample == ResponderSamples(c.manifest.schedule)[i]
  {
    var log := Execute(c);
    RunIsSound(c);
    var n := Passed(log);
    PlannedPrefix(c, log.calls, n);
    ArmsFollowResponders(c, log.calls[..n]);
    assert |log.calls[..n]| == n;
    RespondersOfPrefix(c.manifest.schedule, n);
  }

  /** Names that rise along the schedule make every run replay. */
  lemma RisingNamesReplay(c: Setting)
    requires Runnable(c) && NamesRise(c.manifest, c.sampleTag)
    ensures Replays(c)
  {
    ArmsAlongSchedule(c);
    ReplayAcceptsExactly(c);
    var arms, samples := Execute(c).arms, ResponderSamples(c.manifest.schedule);
    forall i, j | 0 <= i < j < |arms|
      ensures Before(ArmName(c.manifest, c.sampleTag)(arms[i]), ArmName(c.manifest, c.sampleTag)(arms[j]))
    {
      assert Before(SampleName(c.manifest, c.sampleTag, samples[i]), SampleName(c.manifest, c.sampleTag, samples[j]));
    }
  }

  /** Names that do not spoil every run that finishes. */
  lemma FinishedRunIsRefused(c: Setting)
    requires Runnable(c) && !NamesRise(c.manifest, c.sampleTag) && Execute(c).failure.None?
    ensures ReplayOfRun(c) == Err(Refusal(c))
  {
    FallingNamesFall(c);
    ReplayAcceptsExactly(c);
  }

  lemma FallingNamesFall(c: Setting)
    requires Runnable(c) && !NamesRise(c.manifest, c.sampleTag) && Execute(c).failure.None?
    ensures !NamesAscend(ArmName(c.manifest, c.sampleTag), Execute(c).arms)
  {
    var samples := ResponderSamples(c.manifest.schedule);
    var i, j :| 0 <= i < j < |samples|
      && !Before(SampleName(c.manifest, c.sampleTag, samples[i]), SampleName(c.manifest, c.sampleTag, samples[j]));
    FinishedRunArm(c, i);
    FinishedRunArm(c, j);
    var arms := Execute(c).arms;
    assert !Before(ArmName(c.manifest, c.sampleTag)(arms[i]), ArmName(c.manifest, c.sampleTag)(arms[j]));
  }

  /** No two scheduled samples share a tag. */
  ghost predicate TagsApart(m: Manifest, tag: SampleId -> Bytes) {
    var samples := ResponderSamples(m.schedule);
    forall i, j :: 0 <= i < j < |samples| ==> tag(samples[i]) != tag(samples[j])
  }

  /** With tags apart no arm's name is taken, so that it is always replay that refuses. */
  lemma TagsApartRefuse(c: Setting)
    requires Runnable(c) && TagsApart(c.manifest, c.sampleTag)
    ensures Refusal(c) == ArmsDifferFromReport
  {
    var arms, samples, name := Execute(c).arms, ResponderSamples(c.manifest.schedule), ArmName(c.manifest, c.sampleTag);
    ArmsAlongSchedule(c);
    forall i, j | 0 <= i < j < |arms| ensures name(arms[i]) != name(arms[j]) {
      ScheduledSampleIsPlanned(c.manifest, i);
      ScheduledSampleIsPlanned(c.manifest, j);
      var m, n := ArmsBySample(c.manifest)[samples[i]].rank, ArmsBySample(c.manifest)[samples[j]].rank;
      if name(arms[i]) == name(arms[j]) {
        NumberedNamesDiffer(20, m, n, c.sampleTag(samples[i]), c.sampleTag(samples[j]));
      }
    }
  }

  lemma ScheduledSampleIsPlanned(m: Manifest, i: nat)
    requires ValidManifest(m) && i < |ResponderSamples(m.schedule)|
    ensures ResponderSamples(m.schedule)[i] in ArmsBySample(m)
  {
    ScheduledResponders(m);
    assert ResponderSamples(m.schedule)[i] in ResponderSamples(m.schedule);
  }

  // Names of built manifests

  /** Tags are digest prefixes, all of one length. */
  ghost predicate EvenTags(tag: SampleId -> Bytes) {
    forall x, y :: |tag(x)| == |tag(y)|
  }

  /** Wherever ranks tie, the tags ascend along the schedule. */
  ghost predicate TiedTagsRise(frozen: Frozen, digest: Text, tag: SampleId -> Bytes) {
    var samples := ResponderSamples(Build(frozen, digest).schedule);
    forall i, j :: 0 <= i < j < |samples| && frozen.rank(samples[i]) == frozen.rank(samples[j]) ==>
      Before(tag(samples[i]), tag(samples[j]))
  }

  lemma {:induction false} RespondersOfArms(arms: seq<ArmPlan>)
    ensures |ResponderSamples(CallIds(arms))| == |arms|
    ensures forall i :: 0 <= i < |arms| ==> ResponderSamples(CallIds(arms))[i] == arms[i].sample
  {
    if arms != [] {
      var n := |arms| - 1;
      var head, a, b := CallIds(arms[..n]), Call(arms[n].sample, ProducerA), Call(arms[n].sample, ResponderB);
      RespondersOfArms(arms[..n]);
      assert CallIds(arms)[..|CallIds(arms)| - 1] == head + [a];
      assert (head + [a])[..|head + [a]| - 1] == head;
      assert ResponderSamples(head + [a]) == ResponderSamples(head);
      assert ResponderSamples(CallIds(arms)) == ResponderSamples(head) + [arms[n].sample];
    }
  }

  lemma BuiltRank(frozen: Frozen, digest: Text, x: SampleId)
    requires x in ArmsBySample(Build(frozen, digest))
    ensures ArmsBySample(Build(frozen, digest))[x].rank == frozen.rank(x)
  {
    var m := Build(frozen, digest);
    ArmForSample(m, Call(x, ResponderB));
    var k :| 0 <= k < |BuildArms(frozen)| && BuildArms(frozen)[k] == ArmsBySample(m)[x];
  }

  /** The responders of a built schedule are the planned samples, sorted by rank and then by label. */
  lemma BuiltResponders(frozen: Frozen, digest: Text, i: nat, j: nat)
    requires DistinctBy(ItemId, frozen.items) && i < j < |ResponderSamples(Build(frozen, digest).schedule)|
    ensures var samples := ResponderSamples(Build(frozen, digest).schedule);
      && samples[i] in ArmsBySample(Build(frozen, digest)) && samples[j] in ArmsBySample(Build(frozen, digest))
      && frozen.rank(samples[i]) <= frozen.rank(samples[j])
      && (frozen.rank(samples[i]) == frozen.rank(samples[j]) ==>
            TextLeq(SampleLabel(samples[i]), SampleLabel(samples[j])))
  {
    var m := Build(frozen, digest);
    var sorted := Sort(ByRank, m.arms);
    RespondersOfArms(sorted);
    BuiltArmsAreDistinct(frozen);
    ByRankIsTotal();
    SortSorts(ByRank, m.arms);
    assert ByRank(sorted[i], sorted[j]);
    SortedArmIsPlanned(frozen, digest, i);
    SortedArmIsPlanned(frozen, digest, j);
  }

  lemma SortedArmIsPlanned(frozen: Frozen, digest: Text, i: nat)
    requires DistinctBy(ItemId, frozen.items) && i < |Sort(ByRank, BuildArms(frozen))|
    ensures var arm := Sort(ByRank, BuildArms(frozen))[i];
      arm.sample in ArmsBySample(Build(frozen, digest)) && arm.rank == frozen.rank(arm.sample)
  {
    BuiltArmsAreDistinct(frozen);
    var arm := Sort(ByRank, BuildArms(frozen))[i];
    assert arm in multiset(BuildArms(frozen));
    var k :| 0 <= k < |BuildArms(frozen)| && BuildArms(frozen)[k] == arm;
    IndexDomain(SampleOf, BuildArms(frozen), arm.sample);
    assert SampleOf(BuildArms(frozen)[k]) == arm.sample;
  }

  lemma {:induction false} LeqBeforeSuffix(s: Bytes, t: Bytes, u: Bytes)
    requires |s| == |t|
    ensures TextLeq(s + u, t + u) <==> TextLeq(s, t)
  {
    if s == [] {
      assert s + u == u && t + u == u;
      LeqReflexive(u);
    } else {
      assert (s + u)[1..] == s[1..] + u && (t + u)[1..] == t[1..] + u;
      LeqBeforeSuffix(s[1..], t[1..], u);
    }
  }

  lemma {:induction false} LeqReflexive(u: Bytes)
    ensures TextLeq(u, u)
  {
    if u != [] {
      LeqReflexive(u[1..]);
    }
  }

  /** Under one number, names of equal length are ordered by their tags. */
  lemma TiedNames(rank: nat, s: Bytes, t: Bytes)
    requires |s| == |t|
    ensures Before(NumberedName(20, rank, s), NumberedName(20, rank, t)) <==> Before(s, t)
  {
    var prefix, json: Bytes := Padded(20, rank) + [45], [46, 106, 115, 111, 110];
    assert NumberedName(20, rank, s) == prefix + (s + json);
    assert NumberedName(20, rank, t) == prefix + (t + json);
    LeqAfterPrefix(prefix, s + json, t + json);
    LeqBeforeSuffix(s, t, json);
    if NumberedName(20, rank, s) == NumberedName(20, rank, t) {
      assert s == NumberedName(20, rank, s)[|prefix|..|prefix| + |s|];
      assert t == NumberedName(20, rank, t)[|prefix|..|prefix| + |t|];
    }
  }

  lemma BuiltNames(frozen: Frozen, digest: Text, tag: SampleId -> Bytes, i: nat, j: nat)
    requires Buildable(frozen) && i < j < |ResponderSamples(Build(frozen, digest).schedule)|
    ensures var m, samples := Build(frozen, digest), ResponderSamples(Build(frozen, digest).schedule);
      && (frozen.rank(samples[i]) != frozen.rank(samples[j]) ==>
            Before(SampleName(m, tag, samples[i]), SampleName(m, tag, samples[j])))
      && (frozen.rank(samples[i]) == frozen.rank(samples[j]) && |tag(samples[i])| == |tag(samples[j])| ==>
            (Before(SampleName(m, tag, samples[i]), SampleName(m, tag, samples[j]))
             <==> Before(tag(samples[i]), tag(samples[j]))))
  {
    var samples := ResponderSamples(Build(frozen, digest).schedule);
    BuiltResponders(frozen, digest, i, j);
    BuiltRank(frozen, digest, samples[i]);
    BuiltRank(frozen, digest, samples[j]);
    PowersOfTen();
    if frozen.rank(samples[i]) != frozen.rank(samples[j]) {
      NumberedNamesAscend(20, frozen.rank(samples[i]), frozen.rank(samples[j]), tag(samples[i]), tag(samples[j]));
    } else if |tag(samples[i])| == |tag(samples[j])| {
      TiedNames(frozen.rank(samples[i]), tag(samples[i]), tag(samples[j]));
    }
  }

  lemma NamesRiseExactly(frozen: Frozen, digest: Text, tag: SampleId -> Bytes)
    requires Buildable(frozen) && EvenTags(tag)
    ensures NamesRise(Build(frozen, digest), tag) <==> TiedTagsRise(frozen, digest, tag)
  {
    var m, samples := Build(frozen, digest), ResponderSamples(Build(frozen, digest).schedule);
    forall i, j | 0 <= i < j < |samples|
      ensures Before(SampleName(m, tag, samples[i]), SampleName(m, tag, samples[j]))
        <==> (frozen.rank(samples[i]) == frozen.rank(samples[j]) ==> Before(tag(samples[i]), tag(samples[j])))
    {
      BuiltNames(frozen, digest, tag, i, j);
    }
  }

  // Which manifests are safe

  /** Every run on the manifest that may start, whatever its executor, replays to its own report. */
  ghost predicate AllRunsReplay(frozen: Frozen, digest: Text, tag: SampleId -> Bytes) {
    forall c: Setting :: c.manifest == Build(frozen, digest) && c.sampleTag == tag && Runnable(c) ==> Replays(c)
  }

  /** A manifest is safe for every executor exactly when its tied tags rise along its schedule, or it does
      not conform, so that nothing runs on it. */
  lemma AllRunsReplayExactly(frozen: Frozen, digest: Text, tag: SampleId -> Bytes)
    requires Buildable(frozen) && EvenTags(tag)
    ensures AllRunsReplay(frozen, digest, tag) <==> (Conforms(Build(frozen, digest)) ==> TiedTagsRise(frozen, digest, tag))
  {
    NamesRiseExactly(frozen, digest, tag);
    if TiedTagsRise(frozen, digest, tag) {
      forall c: Setting | c.manifest == Build(frozen, digest) && c.sampleTag == tag && Runnable(c) ensures Replays(c) {
        RisingNamesReplay(c);
      }
    } else if Conforms(Build(frozen, digest)) {
      UnsafeManifestIsRefused(frozen, digest, tag);
      assert !Replays(Willing(frozen, digest, tag, map[]));
    }
  }

  /** On any other conforming manifest a run that finishes without fault does not end well: its own replay
      refuses it, or an arm's file name is taken, which tags that are apart exclude. */
  lemma UnsafeManifestIsRefused(frozen: Frozen, digest: Text, tag: SampleId -> Bytes)
    requires Buildable(frozen) && EvenTags(tag) && Conforms(Build(frozen, digest)) && !TiedTagsRise(frozen, digest, tag)
    ensures var c := Willing(frozen, digest, tag, map[]);
      && c.manifest == Build(frozen, digest) && Authorized(c) && Runnable(c)
      && Execute(c).failure.None? && ReplayOfRun(c) == Err(Refusal(c))
      && (TagsApart(c.manifest, tag) ==> Refusal(c) == ArmsDifferFromReport)
  {
    WillingFinishes(frozen, digest, tag, map[]);
    NamesRiseExactly(frozen, digest, tag);
    FinishedRunIsRefused(Willing(frozen, digest, tag, map[]));
    if TagsApart(Build(frozen, digest), tag) {
      WillingSetting(frozen, digest, tag, map[]);
      TagsApartRefuse(Willing(frozen, digest, tag, map[]));
    }
  }
}
