/**
 Replaying a run: whatever the executor did, the persisted evidence of a run is accepted and gives
 back the run's own report exactly when the names of its arm files ascend, which strictly rising
 randomization ranks guarantee.
 */
module Gate0Replay {
  import opened Wrappers
  import opened Scalars
  import opened Collections
  import opened EvidenceFiles
  import opened Gate0Plan
  import opened Gate0Run
  import opened Gate0Safety
  import opened Gate0Results
  import Analysis = Gate0Analysis

  /** A fixture run carries no live authority; a live one carries it whole. Either has a deadline. */
  predicate Authorized(c: Setting) {
    && c.deadline > 0 && (c.provenance.Fixture? <==> c.authorization.None?) && (c.provenance.Fixture? <==> c.profile.None?)
  }

  ghost predicate Runnable(c: Setting) {
    && ValidManifest(c.manifest) && Conforms(c.manifest) && Authorized(c) && Ready(c)
    && |c.manifest.schedule| <= 10000
  }

  // The report is always valid

  /** The facts of a run's report that its validation and its replay look at. */
  lemma ReportFacts(c: Setting)
    requires Runnable(c)
    ensures ReportOf(c, Execute(c)).Some?
    ensures var log, report := Execute(c), ReportOf(c, Execute(c)).value;
      && ValidReport(report) && report.manifestDigest == c.manifest.digest && report.failure == log.failure
      && (report.completed <==> log.failure.None?)
      && report.calls == CallDigests(log.calls) && report.arms == ArmDigests(log.arms)
      && (report.completed ==>
            && report.scheduledCalls == 2 * |c.manifest.arms| && report.completedArms == |c.manifest.arms|
            && report.pricedUnits == TotalUnits(c.manifest)
            && report.analysis == Analysis.Analyze(c.manifest, c.thresholds, c.standardError, Judgements(log.arms)))
  {
    var m, log := c.manifest, Execute(c);
    EveryArmIsProduced(c);
    ScheduleIsPlanned(m);
    ScheduledResponders(m);
    RunIsSound(c);
    if log.failure.None? {
      FinishedRun(c);
      FinishedRunCoversThePanel(c);
      FinishedRunAddsUp(c);
      AnalysisKeepsSource(c, Judgements(log.arms));
    }
  }

  lemma AnalysisKeepsSource(c: Setting, observations: seq<Analysis.Observation>)
    requires Analysis.Acceptable(c.manifest, observations)
    requires Analysis.Sources(observations) == {SourceOf(c.provenance)}
    ensures Analysis.Analyze(c.manifest, c.thresholds, c.standardError, observations).Some?
    ensures Analysis.Analyze(c.manifest, c.thresholds, c.standardError, observations).value.source == SourceOf(c.provenance)
  {
  }

  // The persisted calls pass every check

  lemma CallNamesAscend(c: Setting)
    requires Ready(c) && |c.manifest.schedule| <= 10000
    ensures NamesAscend(CallName(c.callTag), Execute(c).calls)
  {
    var calls := Execute(c).calls;
    PowersOfTen();
    forall i, j | 0 <= i < j < |calls|
      ensures Before(CallName(c.callTag)(calls[i]), CallName(c.callTag)(calls[j]))
    {
      CallsFollowTheSchedule(c, i);
      CallsFollowTheSchedule(c, j);
      NumberedNamesAscend(4, i, j, c.callTag(calls[i].scheduledCall), c.callTag(calls[j].scheduledCall));
    }
  }

  /** No call is ever refused its file. */
  lemma CallsAreWritten(c: Setting)
    requires Ready(c)
    ensures WriteAll(CallName(c.callTag), Execute(c).calls).Some?
  {
    var calls, name := Execute(c).calls, CallName(c.callTag);
    forall i, j | 0 <= i < j < |calls| ensures name(calls[i]) != name(calls[j]) {
      CallsFollowTheSchedule(c, i);
      CallsFollowTheSchedule(c, j);
      if name(calls[i]) == name(calls[j]) {
        NumberedNamesDiffer(4, i, j, c.callTag(calls[i].scheduledCall), c.callTag(calls[j].scheduledCall));
      }
    }
    WrittenExactly(name, calls);
  }

  lemma {:induction false} NoCallIsCrossed(c: Setting, calls: seq<CallObservation>, k: nat)
    requires Ready(c) && AsPlanned(c, calls) && k <= |calls|
    ensures CrossedCall(c.manifest, calls, k).None?
    decreases |calls| - k
  {
    if k < |calls| {
      assert Recorded(c, calls[k], k);
      NoCallIsCrossed(c, calls, k + 1);
    }
  }

  lemma RepeatsGrow(ids: seq<Text>, id: Text)
    requires !Repeats(ids) && id !in ids
    ensures !Repeats(ids + [id])
  {
  }

  lemma {:induction false} UnobjectedIdsDiffer(c: Setting, calls: seq<CallObservation>)
    requires ClearUpTo(c, calls, |calls|)
    ensures !Repeats(ResponseIds(calls))
  {
    if calls != [] {
      var n := |calls| - 1;
      forall k | 0 <= k < n ensures Unobjected(c, calls[..n], k) {
        assert calls[..n][..k] == calls[..k];
        assert Unobjected(c, calls, k);
      }
      UnobjectedIdsDiffer(c, calls[..n]);
      assert Unobjected(c, calls, n);
      if calls[n].result.responseId.Some? {
        RepeatsGrow(ResponseIds(calls[..n]), calls[n].result.responseId.value);
      } else {
        assert ResponseIds(calls) == ResponseIds(calls[..n]);
      }
    }
  }

  /** Response ids repeat only when that is the recorded failure. */
  lemma IdsRepeatOnlyWhenRecorded(c: Setting)
    requires Ready(c)
    ensures var log := Execute(c);
      Repeats(ResponseIds(log.calls)) ==> log.failure.Some? && log.failure.value.code.DuplicateResponseId?
  {
    RunIsSound(c);
    var log := Execute(c);
    var n := Passed(log);
    PlannedPrefix(c, log.calls, n);
    UnobjectedIdsDiffer(c, log.calls[..n]);
    if n < |log.calls| {
      LastObjection(c, log, n);
    } else {
      assert log.calls[..n] == log.calls;
    }
  }

  lemma LastObjection(c: Setting, log: Log, n: nat)
    requires Ready(c) && log.failure.Some? && n + 1 == |log.calls| && !Repeats(ResponseIds(log.calls[..n]))
    requires Objection(c.deadline, log.calls[..n], log.calls[n]) == Some(log.failure.value.code)
    ensures Repeats(ResponseIds(log.calls)) ==> log.failure.value.code.DuplicateResponseId?
  {
    if !log.failure.value.code.DuplicateResponseId? {
      if log.calls[n].result.responseId.Some? {
        RepeatsGrow(ResponseIds(log.calls[..n]), log.calls[n].result.responseId.value);
      } else {
        assert ResponseIds(log.calls) == ResponseIds(log.calls[..n]);
      }
    }
  }

  lemma CallsPassReplay(c: Setting)
    requires Runnable(c)
    ensures WriteAll(CallName(c.callTag), Execute(c).calls).Some?
    ensures var calls := ReadSorted(WriteAll(CallName(c.callTag), Execute(c).calls).value);
      && calls == Execute(c).calls
      && (forall k :: 0 <= k < |calls| ==> calls[k].index == k)
      && |calls| <= |c.manifest.schedule|
      && (forall k :: 0 <= k < |calls| ==> calls[k].scheduledCall == c.manifest.schedule[k])
      && CrossedCall(c.manifest, calls, 0).None?
  {
    CallNamesAscend(c);
    AscendingNamesReadBack(CallName(c.callTag), Execute(c).calls);
    RunIsSound(c);
    NoCallIsCrossed(c, Execute(c).calls, 0);
    forall k | 0 <= k < |Execute(c).calls|
      ensures Execute(c).calls[k].index == k && Execute(c).calls[k].scheduledCall == c.manifest.schedule[k]
    {
      assert Recorded(c, Execute(c).calls[k], k);
    }
  }

  lemma SameArmDigests(a: seq<ArmObservation>, b: seq<ArmObservation>)
    ensures ArmDigests(a) == ArmDigests(b) <==> a == b
  {
    if ArmDigests(a) == ArmDigests(b) {
      assert |a| == |b|;
      forall i | 0 <= i < |a| ensures a[i] == b[i] {
        assert ArmDigests(a)[i] == ArmDigests(b)[i];
      }
    }
  }

  ghost function RunReport(c: Setting): Report
    requires Runnable(c)
  {
    ReportFacts(c);
    ReportOf(c, Execute(c)).value
  }

  /** How a run ends: what it leaves on disk, read back and checked. */
  ghost function ReplayOfRun(c: Setting): Result<Report, ReplayError>
    requires Runnable(c)
  {
    var evidence := Persisted(c, Execute(c), RunReport(c));
    if evidence.None? then Err(NameTaken) else Replay(c.manifest, c.thresholds, c.standardError, evidence.value)
  }

  /** The run's evidence is accepted, with the run's own report. */
  ghost predicate Replays(c: Setting)
    requires Runnable(c)
  {
    ReplayOfRun(c) == Ok(RunReport(c))
  }

  /** The checks of a replay, given what they look at. */
  lemma WellPlacedCalls(m: Manifest, report: Report, calls: seq<CallObservation>)
    requires forall k :: 0 <= k < |calls| ==> calls[k].index == k
    requires |calls| <= |m.schedule| && forall k :: 0 <= k < |calls| ==> calls[k].scheduledCall == m.schedule[k]
    requires CrossedCall(m, calls, 0).None? && report.calls == CallDigests(calls)
    requires Repeats(ResponseIds(calls)) ==> report.failure.Some? && report.failure.value.code.DuplicateResponseId?
    ensures MisplacedCalls(m, report, calls).None?
  {
  }

  lemma ReplayVerdict(
      m: Manifest, t: Analysis.Thresholds, standardError: seq<real> -> real, e: Evidence, report: Report,
      arms: seq<ArmObservation>)
    requires e.report == Some(report) && ValidReport(report) && report.manifestDigest == m.digest
    requires MisplacedCalls(m, report, ReadSorted(e.calls)).None?
    requires report.arms == ArmDigests(arms)
    requires report.completed ==>
      && report.scheduledCalls == 2 * |m.arms| && report.completedArms == |m.arms|
      && report.pricedUnits == TotalUnits(m)
      && report.analysis == Analysis.Analyze(m, t, standardError, Judgements(arms))
    requires report.completed || e.partial
    ensures Replay(m, t, standardError, e) == if ReadSorted(e.arms) == arms then Ok(report) else Err(ArmsDifferFromReport)
  {
    SameArmDigests(ReadSorted(e.arms), arms);
  }

  function ArmFiles(c: Setting): Option<seq<File<ArmObservation>>>
    requires Ready(c)
  {
    WriteAll(ArmName(c.manifest, c.sampleTag), Execute(c).arms)
  }

  /** The end turns on the arm files alone: all else passes. */
  lemma ReplayTurnsOnArms(c: Setting)
    requires Runnable(c)
    ensures ReplayOfRun(c) ==
      if ArmFiles(c).None? then Err(NameTaken)
      else if ReadSorted(ArmFiles(c).value) == Execute(c).arms then Ok(RunReport(c)) else Err(ArmsDifferFromReport)
  {
    ReportFacts(c);
    CallsPassReplay(c);
    IdsRepeatOnlyWhenRecorded(c);
    WellPlacedCalls(c.manifest, RunReport(c), Execute(c).calls);
    var evidence := Persisted(c, Execute(c), RunReport(c));
    if evidence.Some? {
      ReplayVerdict(c.manifest, c.thresholds, c.standardError, evidence.value, RunReport(c), Execute(c).arms);
    }
  }

  /** How a run that does not replay ends: refused by its replay, or raising when an arm's name is taken. */
  ghost function Refusal(c: Setting): ReplayError
    requires Ready(c)
  {
    if DistinctBy(ArmName(c.manifest, c.sampleTag), Execute(c).arms) then ArmsDifferFromReport else NameTaken
  }

  /** For every executor, a run's evidence is accepted with its own report exactly when the arm names ascend. */
  lemma ReplayAcceptsExactly(c: Setting)
    requires Runnable(c)
    ensures Replays(c) <==> NamesAscend(ArmName(c.manifest, c.sampleTag), Execute(c).arms)
    ensures !Replays(c) ==> ReplayOfRun(c) == Err(Refusal(c))
  {
    ReplayTurnsOnArms(c);
    ReadsBackExactly(ArmName(c.manifest, c.sampleTag), Execute(c).arms);
    WrittenExactly(ArmName(c.manifest, c.sampleTag), Execute(c).arms);
  }

  // Distinct ranks are enough

  /** The responders' arms, in the order of a schedule whose responders rise in rank. */
  lemma {:induction false} ResponderPosition(ids: seq<CallId>, i: nat) returns (k: nat)
    requires i < |ResponderSamples(ids)|
    ensures k < |ids| && ids[k] == Call(ResponderSamples(ids)[i], ResponderB)
    ensures i <= k
    ensures forall j :: 0 <= j < i ==> Call(ResponderSamples(ids)[j], ResponderB) in ids[..k]
  {
    var n := |ids| - 1;
    if i < |ResponderSamples(ids[..n])| {
      k := ResponderPosition(ids[..n], i);
      assert ids[..n][..k] == ids[..k];
    } else {
      k := n;
      forall j | 0 <= j < i ensures Call(ResponderSamples(ids)[j], ResponderB) in ids[..k] {
        ResponderSampleMembers(ids[..n], ResponderSamples(ids)[j]);
      }
      RespondersAreFewer(ids[..n]);
    }
  }

  lemma {:induction false} RespondersAreFewer(ids: seq<CallId>)
    ensures |ResponderSamples(ids)| <= |ids|
  {
    if ids != [] {
      RespondersAreFewer(ids[..|ids| - 1]);
    }
  }

  lemma RanksRiseOverArms(m: Manifest, n: nat, i: nat, j: nat)
    requires forall k :: 0 <= k < |m.schedule| ==> m.schedule[k].sample in ArmsBySample(m)
    requires RanksFollowSchedule(m) && n <= |m.schedule|
    requires i < j < |ResponderSamples(m.schedule[..n])|
    ensures ResponderSamples(m.schedule[..n])[i] in ArmsBySample(m) && ResponderSamples(m.schedule[..n])[j] in ArmsBySample(m)
    ensures ArmsBySample(m)[ResponderSamples(m.schedule[..n])[i]].rank < ArmsBySample(m)[ResponderSamples(m.schedule[..n])[j]].rank
  {
    var ids := m.schedule[..n];
    var b := ResponderPosition(ids, j);
    var x := Call(ResponderSamples(ids)[i], ResponderB);
    assert x in ids[..b];
    var a :| 0 <= a < b && ids[..b][a] == x;
    assert m.schedule[a] == x && m.schedule[b] == Call(ResponderSamples(ids)[j], ResponderB);
  }

  lemma ArmNamesAscend(c: Setting)
    requires Runnable(c)
    requires forall k :: 0 <= k < |c.manifest.schedule| ==> c.manifest.schedule[k].sample in ArmsBySample(c.manifest)
    requires RanksFollowSchedule(c.manifest)
    requires forall i :: 0 <= i < |c.manifest.arms| ==> c.manifest.arms[i].rank < LENGTH_LIMIT
    ensures NamesAscend(ArmName(c.manifest, c.sampleTag), Execute(c).arms)
  {
    var m, log := c.manifest, Execute(c);
    RunIsSound(c);
    var n := Passed(log);
    PlannedPrefix(c, log.calls, n);
    ArmsFollowResponders(c, log.calls[..n]);
    var samples := ResponderSamples(m.schedule[..n]);
    assert |log.calls[..n]| == n;
    PowersOfTen();
    forall i, j | 0 <= i < j < |log.arms|
      ensures Before(ArmName(m, c.sampleTag)(log.arms[i]), ArmName(m, c.sampleTag)(log.arms[j]))
    {
      RanksRiseOverArms(m, n, i, j);
      RankFits(m, samples[j]);
      NumberedNamesAscend(20, ArmsBySample(m)[samples[i]].rank, ArmsBySample(m)[samples[j]].rank,
                          c.sampleTag(samples[i]), c.sampleTag(samples[j]));
    }
  }

  lemma RankFits(m: Manifest, x: SampleId)
    requires x in ArmsBySample(m) && forall i :: 0 <= i < |m.arms| ==> m.arms[i].rank < LENGTH_LIMIT
    ensures ArmsBySample(m)[x].rank < Pow10(20)
  {
    IndexDomain(SampleOf, m.arms, x);
    var i :| 0 <= i < |m.arms| && m.arms[i] == ArmsBySample(m)[x];
    PowersOfTen();
  }

  /** With 64-bit ranks that rise along the schedule, every run of every executor replays to its own report. */
  lemma EveryRunReplays(c: Setting)
    requires Runnable(c)
    requires forall k :: 0 <= k < |c.manifest.schedule| ==> c.manifest.schedule[k].sample in ArmsBySample(c.manifest)
    requires RanksFollowSchedule(c.manifest)
    requires forall i :: 0 <= i < |c.manifest.arms| ==> c.manifest.arms[i].rank < LENGTH_LIMIT
    ensures Replays(c)
  {
    ArmNamesAscend(c);
    ReplayAcceptsExactly(c);
  }

  lemma BuiltRunIsRunnable(c: Setting, frozen: Frozen, digest: Text)
    requires c.manifest == Build(frozen, digest)
    requires frozen.items != [] && |frozen.items| <= 250 && DistinctBy(ItemId, frozen.items) && Authorized(c)
    requires Conforms(c.manifest)
    ensures Runnable(c)
  {
    BuiltManifestIsValid(frozen, digest);
    BuiltArmsAreDistinct(frozen);
    ScheduleIsPlanned(c.manifest);
    ValidManifestIsReady(c);
  }

  lemma BuiltRanksFit(frozen: Frozen, digest: Text, i: nat)
    requires forall sample :: frozen.rank(sample) < LENGTH_LIMIT
    requires i < |Build(frozen, digest).arms|
    ensures Build(frozen, digest).arms[i].rank < LENGTH_LIMIT
  {
  }

  /** For built manifests, distinct 64-bit ranks are all it takes. */
  lemma EveryBuiltRunReplays(c: Setting, frozen: Frozen, digest: Text)
    requires c.manifest == Build(frozen, digest)
    requires frozen.items != [] && |frozen.items| <= 250 && DistinctBy(ItemId, frozen.items) && Authorized(c)
    requires Conforms(c.manifest) && DistinctBy(RankOf, BuildArms(frozen))
    requires forall sample :: frozen.rank(sample) < LENGTH_LIMIT
    ensures Runnable(c) && Replays(c)
  {
    BuiltRunIsRunnable(c, frozen, digest);
    BuiltScheduleFollowsRanks(frozen, digest);
    forall i | 0 <= i < |c.manifest.arms| ensures c.manifest.arms[i].rank < LENGTH_LIMIT {
      BuiltRanksFit(frozen, digest, i);
    }
    EveryRunReplays(c);
  }
}
