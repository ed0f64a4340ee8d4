/**
 The forced-exchange guarantees: what each responder must have been shown, how a completed run
 adds up, and that it covers exactly the planned arms.
 */
module Gate0Results {
  import opened Wrappers
  import opened Scalars
  import opened Sorting
  import opened Collections
  import opened Gate0Plan
  import opened Gate0Run
  import opened Gate0Safety
  import Analysis = Gate0Analysis

  /** The calls of any run are a prefix of the schedule, and each ran exactly as it was planned. */
  lemma CallsFollowTheSchedule(c: Setting, k: nat)
    requires Ready(c)
    ensures |Execute(c).calls| <= |c.manifest.schedule|
    ensures k < |Execute(c).calls| ==>
      && Execute(c).calls[k].index == k && Execute(c).calls[k].scheduledCall == c.manifest.schedule[k]
      && c.manifest.schedule[k].sample in ArmsBySample(c.manifest)
      && Execute(c).calls[k].executed == PlanOf(c.manifest, c.manifest.schedule[k])
      && Supervised(c.deadline, Execute(c).calls[k].executed, c.executor(k, Execute(c).calls[k].executed))
         == Some(Execute(c).calls[k].result)
  {
    RunIsSound(c);
    if k < |Execute(c).calls| {
      assert Recorded(c, Execute(c).calls[k], k);
    }
  }

  /** Only the last call of a run can be at fault, and a recorded fault is that call's first objection. */
  lemma OnlyTheLastCallFails(c: Setting)
    requires Ready(c)
    ensures Execute(c).failure.Some? ==>
      && var failure := Execute(c).failure.value;
         && |Execute(c).calls| <= failure.index + 1 <= |c.manifest.schedule| && failure.index <= |Execute(c).calls|
         && failure.call == Some(c.manifest.schedule[failure.index])
    ensures forall k :: 0 <= k < Passed(Execute(c)) ==> Unobjected(c, Execute(c).calls, k)
  {
    RunIsSound(c);
  }

  // What the responders were shown

  /** A responder's planned artifact is its producer's own text, or that text's neutral stand-in. */
  lemma ResponderSawItsProducer(c: Setting, k: nat) returns (p: nat)
    requires Ready(c) && k < |Execute(c).calls| && Execute(c).calls[k].scheduledCall.actor.ResponderB?
    ensures p < k && Execute(c).calls[p].scheduledCall == Call(Execute(c).calls[k].scheduledCall.sample, ProducerA)
    ensures EmittedText(Execute(c).calls[p].result).Some?
    ensures var arm, text := Execute(c).calls[k].scheduledCall.sample.arm, EmittedText(Execute(c).calls[p].result).value;
      var artifact := Execute(c).calls[k].executed.payload.artifact;
      && (arm.IntactExchange? || arm.PrivateAOnly? ==> artifact == Some(text))
      && (arm.MatchedNeutral? ==> artifact == Some(NeutralText(text)))
  {
    RunIsSound(c);
    var calls := Execute(c).calls;
    var id := calls[k].scheduledCall;
    assert Recorded(c, calls[k], k) && Fed(c, calls[..k], id);
    p := MadeAt(calls[..k], Call(id.sample, ProducerA));
    ArmForSample(c.manifest, id);
  }

  /** The neutral stand-in remembers only a text's length, and whether it is all `N`s. */
  lemma SameNeutralText(text: Text, share: Text)
    requires text != [] && share != [] && !AllN(share)
    ensures NeutralText(text) == NeutralText(share) <==> |text| == |share| && !AllN(text)
  {
    if NeutralText(text) == NeutralText(share) {
      assert NeutralText(text)[0] == NeutralText(share)[0];
    }
  }

  /** What a built manifest forces the producers of its executed responders to have emitted. */
  lemma BuiltRunForcesTheShare(c: Setting, frozen: Frozen, digest: Text, i: nat, k: nat) returns (p: nat)
    requires c.manifest == Build(frozen, digest) && frozen.items != [] && DistinctBy(ItemId, frozen.items)
    requires Ready(c) && k < |Execute(c).calls| && Execute(c).calls[k].scheduledCall.actor.ResponderB?
    requires i < |frozen.items| && frozen.items[i].id == Execute(c).calls[k].scheduledCall.sample.item
    ensures p < k && Execute(c).calls[p].scheduledCall == Call(Execute(c).calls[k].scheduledCall.sample, ProducerA)
    ensures EmittedText(Execute(c).calls[p].result).Some?
    ensures var arm, text := Execute(c).calls[k].scheduledCall.sample.arm, EmittedText(Execute(c).calls[p].result).value;
      && (arm.IntactExchange? || arm.PrivateAOnly? ==> text == ArtifactText(frozen.items[i]))
      && (arm.MatchedNeutral? ==> |text| == |ArtifactText(frozen.items[i])| && !AllN(text))
  {
    p := ResponderSawItsProducer(c, k);
    CallsFollowTheSchedule(c, k);
    var id := Execute(c).calls[k].scheduledCall;
    ArmForSample(c.manifest, id);
    var b :| 0 <= b < |c.manifest.arms| && c.manifest.arms[b] == ArmFor(c.manifest, id);
    if i != b / 20 {
      DistinctKeys(ItemId, frozen.items, i, b / 20);
    }
    var share := ArtifactText(frozen.items[i]);
    assert share[0] == 115;
    SameNeutralText(EmittedText(Execute(c).calls[p].result).value, share);
  }

  // The arms a run produces

  function ResponderSamples(ids: seq<CallId>): seq<SampleId> {
    if ids == [] then []
    else
      var n := |ids| - 1;
      ResponderSamples(ids[..n]) + if ids[n].actor.ResponderB? then [ids[n].sample] else []
  }

  lemma {:induction false} ResponderSampleMembers(ids: seq<CallId>, x: SampleId)
    ensures x in ResponderSamples(ids) <==> Call(x, ResponderB) in ids
  {
    if ids != [] {
      var n := |ids| - 1;
      ResponderSampleMembers(ids[..n], x);
      assert ids == ids[..n] + [ids[n]];
    }
  }

  lemma {:induction false} ResponderSamplesDistinct(ids: seq<CallId>)
    requires Distinct(ids)
    ensures Distinct(ResponderSamples(ids))
  {
    if ids != [] {
      var n := |ids| - 1;
      ResponderSamplesDistinct(ids[..n]);
      ResponderSampleMembers(ids[..n], ids[n].sample);
    }
  }

  /** An arm observation of a sound run: bound to the manifest, and priced as planned. */
  predicate Faithful(c: Setting, a: ArmObservation) {
    && Analysis.Bound(c.manifest, a.observation) && a.observation.sample == a.sample
    && a.observation.source == SourceOf(c.provenance)
    && a.pricedUnits == ArmUnits(ArmsBySample(c.manifest)[a.sample])
  }

  lemma PlannedPrefix(c: Setting, calls: seq<CallObservation>, n: nat)
    requires Ready(c) && AsPlanned(c, calls) && n <= |calls| && ClearUpTo(c, calls, n)
    ensures AsPlanned(c, calls[..n]) && ClearUpTo(c, calls[..n], n)
  {
    forall k | 0 <= k < n ensures Recorded(c, calls[..n][k], k) && Fed(c, calls[..n][..k], calls[..n][k].scheduledCall) {
      assert calls[..n][..k] == calls[..k];
      assert Recorded(c, calls[k], k);
    }
    forall k | 0 <= k < n ensures Unobjected(c, calls[..n], k) {
      assert calls[..n][..k] == calls[..k];
      assert Unobjected(c, calls, k);
    }
  }

  lemma ArmAfterIsFaithful(c: Setting, calls: seq<CallObservation>)
    requires Ready(c) && AsPlanned(c, calls) && ClearUpTo(c, calls, |calls|) && calls != []
    requires calls[|calls| - 1].scheduledCall.actor.ResponderB?
    ensures var arms := ArmAfter(c, calls[..|calls| - 1], calls[|calls| - 1]);
      |arms| == 1 && arms[0].sample == calls[|calls| - 1].scheduledCall.sample && Faithful(c, arms[0])
  {
    var n := |calls| - 1;
    var id := calls[n].scheduledCall;
    assert Recorded(c, calls[n], n) && Fed(c, calls[..n], id) && Unobjected(c, calls, n);
    ArmForSample(c.manifest, id);
    UnobjectedIsPriced(c.deadline, calls[..n], calls[n]);
    var p := MadeAt(calls[..n], Call(id.sample, ProducerA));
    assert Recorded(c, calls[p], p) && Unobjected(c, calls, p);
    UnobjectedIsPriced(c.deadline, calls[..p], calls[p]);
  }

  /** One faithful arm per responder, in the order of the schedule. */
  lemma {:induction false} ArmsFollowResponders(c: Setting, calls: seq<CallObservation>)
    requires Ready(c) && AsPlanned(c, calls) && ClearUpTo(c, calls, |calls|)
    ensures |ArmsOf(c, calls)| == |ResponderSamples(c.manifest.schedule[..|calls|])|
    ensures forall i :: 0 <= i < |ArmsOf(c, calls)| ==>
      ArmsOf(c, calls)[i].sample == ResponderSamples(c.manifest.schedule[..|calls|])[i] && Faithful(c, ArmsOf(c, calls)[i])
  {
    if calls != [] {
      var n := |calls| - 1;
      PlannedPrefix(c, calls, n);
      ArmsFollowResponders(c, calls[..n]);
      assert c.manifest.schedule[..|calls|][..n] == c.manifest.schedule[..n];
      assert Recorded(c, calls[n], n);
      if calls[n].scheduledCall.actor.ResponderB? {
        ArmAfterIsFaithful(c, calls);
      }
    }
  }

  /** A run without failure has seen the whole schedule and owns the arms of all its calls. */
  lemma FinishedRun(c: Setting)
    requires Ready(c) && Execute(c).failure.None?
    ensures var log := Execute(c);
      && |log.calls| == |c.manifest.schedule| && AsPlanned(c, log.calls) && ClearUpTo(c, log.calls, |log.calls|)
      && log.arms == ArmsOf(c, log.calls)
  {
    RunIsSound(c);
    var log := Execute(c);
    assert log.calls[..|log.calls|] == log.calls;
  }

  lemma ScheduledResponders(m: Manifest)
    requires ValidManifest(m)
    ensures Distinct(ResponderSamples(m.schedule)) && m.arms != []
    ensures |ResponderSamples(m.schedule)| == |m.arms|
    ensures forall x :: x in ResponderSamples(m.schedule) <==> x in ArmsBySample(m)
  {
    ScheduleIsPlanned(m);
    ResponderSamplesDistinct(m.schedule);
    assert Planned(m, Sample(m.panel, m.items[0].id, 0, IntactExchange));
    IndexDomain(SampleOf, m.arms, Sample(m.panel, m.items[0].id, 0, IntactExchange));
    forall i, j | 0 <= i < j < |m.arms| ensures Analysis.Samples(m.arms)[i] != Analysis.Samples(m.arms)[j] {
      DistinctKeys(SampleOf, m.arms, i, j);
    }
    forall x ensures x in ResponderSamples(m.schedule) <==> x in Analysis.Samples(m.arms)
             ensures x in Analysis.Samples(m.arms) <==> x in ArmsBySample(m) {
      ScheduledResponder(m, x);
      Analysis.ExpectedSamples(m, x);
    }
    SameMembersSameMultiset(ResponderSamples(m.schedule), Analysis.Samples(m.arms));
    assert |ResponderSamples(m.schedule)| == |multiset(Analysis.Samples(m.arms))|;
  }

  lemma ScheduledResponder(m: Manifest, x: SampleId)
    requires multiset(m.schedule) == multiset(CallIds(m.arms))
    ensures x in ResponderSamples(m.schedule) <==> x in ArmsBySample(m)
  {
    ResponderSampleMembers(m.schedule, x);
    assert Call(x, ResponderB) in m.schedule <==> Call(x, ResponderB) in multiset(CallIds(m.arms));
    CallIdsMembers(m.arms, Call(x, ResponderB));
    IndexDomain(SampleOf, m.arms, x);
  }

  /** A run without failure yields every arm once, and its observations are ones the analysis takes. */
  lemma FinishedRunCoversThePanel(c: Setting)
    requires ValidManifest(c.manifest) && Ready(c) && Execute(c).failure.None?
    ensures |Execute(c).arms| == |c.manifest.arms|
    ensures forall i :: 0 <= i < |Execute(c).arms| ==> Faithful(c, Execute(c).arms[i])
    ensures Analysis.Acceptable(c.manifest, Judgements(Execute(c).arms))
    ensures Analysis.Sources(Judgements(Execute(c).arms)) == {SourceOf(c.provenance)}
  {
    var m, log := c.manifest, Execute(c);
    FinishedRun(c);
    ArmsFollowResponders(c, log.calls);
    assert m.schedule[..|log.calls|] == m.schedule;
    ScheduledResponders(m);
    JudgementsAreAcceptable(c, log.arms);
  }

  lemma JudgementsAreAcceptable(c: Setting, arms: seq<ArmObservation>)
    requires |arms| == |ResponderSamples(c.manifest.schedule)| > 0
    requires forall i :: 0 <= i < |arms| ==> arms[i].sample == ResponderSamples(c.manifest.schedule)[i] && Faithful(c, arms[i])
    requires Distinct(ResponderSamples(c.manifest.schedule))
    requires forall x :: x in ResponderSamples(c.manifest.schedule) <==> x in ArmsBySample(c.manifest)
    ensures Analysis.Acceptable(c.manifest, Judgements(arms))
    ensures Analysis.Sources(Judgements(arms)) == {SourceOf(c.provenance)}
  {
    var samples, observations := ResponderSamples(c.manifest.schedule), Judgements(arms);
    forall i, j | 0 <= i < j < |observations| ensures Analysis.KeyOf(observations[i]) != Analysis.KeyOf(observations[j]) {
      assert samples[i] != samples[j];
    }
    assert observations[0] in observations;
    assert Analysis.Sources(observations) == {SourceOf(c.provenance)};
    forall x | x in ArmsBySample(c.manifest) ensures x in IndexBy(Analysis.KeyOf, observations) {
      SampleIsObserved(samples, observations, x);
    }
  }

  lemma {:induction false} SampleIsObserved(samples: seq<SampleId>, observations: seq<Analysis.Observation>, x: SampleId)
    requires |samples| == |observations| && x in samples
    requires forall i :: 0 <= i < |samples| ==> observations[i].sample == samples[i]
    ensures x in IndexBy(Analysis.KeyOf, observations)
  {
    var i :| 0 <= i < |samples| && samples[i] == x;
    IndexDomain(Analysis.KeyOf, observations, x);
    assert Analysis.KeyOf(observations[i]) == x;
  }

  // How a finished run adds up

  function UnitsOf(m: Manifest): CallId -> int {
    (id: CallId) => if id.sample in ArmsBySample(m) then PricedUnits(PlanOf(m, id).payload) else 0
  }

  lemma {:induction false} PricesFollowSchedule(c: Setting, calls: seq<CallObservation>)
    requires Ready(c) && AsPlanned(c, calls) && ClearUpTo(c, calls, |calls|)
    ensures SumBy(Priced, calls) == SumBy(UnitsOf(c.manifest), c.manifest.schedule[..|calls|])
  {
    if calls != [] {
      var n := |calls| - 1;
      PlannedPrefix(c, calls, n);
      PricesFollowSchedule(c, calls[..n]);
      PriceAt(c, calls, n);
      SumByLast(UnitsOf(c.manifest), c.manifest.schedule, n);
    }
  }

  lemma PriceAt(c: Setting, calls: seq<CallObservation>, k: nat)
    requires Ready(c) && AsPlanned(c, calls) && ClearUpTo(c, calls, |calls|) && k < |calls|
    ensures Priced(calls[k]) == UnitsOf(c.manifest)(c.manifest.schedule[k])
  {
    assert Recorded(c, calls[k], k) && Unobjected(c, calls, k);
    UnobjectedIsPriced(c.deadline, calls[..k], calls[k]);
  }

  lemma SumByLast<T>(f: T -> int, xs: seq<T>, n: nat)
    requires n < |xs|
    ensures SumBy(f, xs[..n + 1]) == SumBy(f, xs[..n]) + f(xs[n])
  {
    assert xs[..n + 1][..n] == xs[..n];
  }

  lemma {:induction false} UnitsOfArms(m: Manifest, n: nat)
    requires DistinctBy(SampleOf, m.arms) && n <= |m.arms|
    ensures SumBy(UnitsOf(m), CallIds(m.arms[..n])) == SumBy(ArmUnits, m.arms[..n])
  {
    if n > 0 {
      var arm := m.arms[n - 1];
      UnitsOfArms(m, n - 1);
      IndexContent(SampleOf, m.arms, n - 1);
      assert m.arms[..n][..n - 1] == m.arms[..n - 1];
      var a, b := Call(arm.sample, ProducerA), Call(arm.sample, ResponderB);
      SumByAppend(UnitsOf(m), CallIds(m.arms[..n - 1]), [a, b]);
      assert [a, b] == [a] + [b];
      SumByAppend(UnitsOf(m), [a], [b]);
      SumByOne(UnitsOf(m), a);
      SumByOne(UnitsOf(m), b);
    }
  }

  /** The priced units of a finished run sum, over the shuffled schedule, to the manifest's total. */
  lemma FinishedRunAddsUp(c: Setting)
    requires ValidManifest(c.manifest) && Ready(c) && Execute(c).failure.None?
    ensures SumBy(Priced, Execute(c).calls) == TotalUnits(c.manifest)
  {
    var m, log := c.manifest, Execute(c);
    FinishedRun(c);
    PricesFollowSchedule(c, log.calls);
    assert m.schedule[..|log.calls|] == m.schedule;
    SumByPermutation(UnitsOf(m), m.schedule, CallIds(m.arms));
    UnitsOfArms(m, |m.arms|);
    assert m.arms[..|m.arms|] == m.arms;
  }

  /** The report of a finished run never claims a missing arm. */
  lemma EveryArmIsProduced(c: Setting)
    requires ValidManifest(c.manifest) && Ready(c)
    ensures Closing(c.manifest, Execute(c)) == Execute(c).failure
  {
    if Execute(c).failure.None? {
      FinishedRunCoversThePanel(c);
    }
  }
}
