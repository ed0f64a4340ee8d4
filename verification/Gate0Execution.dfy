/**
 The run as the program carries it out: a loop over the schedule with a dictionary of producer
 artifacts, a dictionary of observations, a set of response ids and files written as it goes. It
 computes exactly the run defined on the log alone.
 */
module Gate0Execution {
  import opened Wrappers
  import opened Scalars
  import opened Collections
  import opened EvidenceFiles
  import opened Gate0Plan
  import opened Gate0Run
  import opened Gate0Replay
  import Analysis = Gate0Analysis

  /** The run's dictionaries agree with the calls recorded so far. */
  ghost predicate Books(
      calls: seq<CallObservation>, artifacts: map<SampleId, (CallId, Text)>,
      callById: map<CallId, CallObservation>, responseIds: set<Text>)
  {
    && callById == Made(calls)
    && (forall id :: id in responseIds <==> id in ResponseIds(calls))
    && ArtifactsBooked(calls, artifacts)
  }

  ghost predicate ArtifactsBooked(calls: seq<CallObservation>, artifacts: map<SampleId, (CallId, Text)>) {
    forall sample :: ArtifactFor(artifacts, sample) ==
      if ArtifactOf(calls, sample).Some? then Some((Call(sample, ProducerA), ArtifactOf(calls, sample).value)) else None
  }

  function ArtifactFor(artifacts: map<SampleId, (CallId, Text)>, sample: SampleId): Option<(CallId, Text)> {
    if sample in artifacts then Some(artifacts[sample]) else None
  }

  /** Prepares the next call, runs it, and either stops before recording anything or gives its observation. */
  method MakeCall(c: Setting, ghost log: Log, k: nat, artifacts: map<SampleId, (CallId, Text)>,
                  ghost callById: map<CallId, CallObservation>, ghost responseIds: set<Text>)
    returns (made: Result<CallObservation, Code>)
    requires Ready(c) && k == |log.calls| < |c.manifest.schedule|
    requires Books(log.calls, artifacts, callById, responseIds)
    ensures var id := c.manifest.schedule[k];
      match made
      case Err(code) => Step(c, log) == Fail(log, code, id)
      case Ok(o) =>
        && o.scheduledCall == id && id.sample in ArmsBySample(c.manifest)
        && ArmFor(c.manifest, id).sample == id.sample
        && Step(c, log) == Record(c, log, ArmFor(c.manifest, id), o)
  {
    var id := c.manifest.schedule[k];
    if id.sample !in ArmsBySample(c.manifest) {
      return Err(CrossedIdentity);
    }
    ArmForSample(c.manifest, id);
    var scheduled := CallOf(ArmFor(c.manifest, id), id.actor);
    var effective, paired := scheduled, None;
    if id.actor.ResponderB? {
      assert ArtifactFor(artifacts, id.sample).Some? <==> ArtifactOf(log.calls, id.sample).Some?;
      if id.sample !in artifacts {
        return Err(ArtifactMismatch);
      }
      paired := Some(artifacts[id.sample].0);
      effective := EffectiveCall(scheduled, artifacts[id.sample].1);
      if !SameIdentityAndPrice(effective, scheduled) {
        return Err(ArtifactMismatch);
      }
    }
    var result := Supervised(c.deadline, effective, c.executor(k, effective));
    if result.None? {
      return Err(ExecutorFailed);
    }
    if CrossedResult(result.value, effective, c.manifest) {
      return Err(CrossedIdentity);
    }
    made := Ok(CallObservation(k, c.manifest.digest, c.provenance, id, RequestDigest(scheduled), effective, paired,
                               result.value));
  }

  // What passing review means

  /** No earlier call came back under this response id. */
  predicate FreshId(calls: seq<CallObservation>, r: CallResult) {
    r.responseId.Some? ==> forall j :: 0 <= j < |calls| ==> calls[j].result.responseId != r.responseId
  }

  predicate InTime(deadline: nat, r: CallResult) {
    r.latency <= deadline && !r.status.DeadlineExceeded?
  }

  /** The provider's usage and cost are known, and its priced input is the planned one. */
  predicate Accounted(o: CallObservation) {
    && !o.result.status.AccountingError? && o.result.usage.Some?
    && o.result.usage.value.tokens.Some? && o.result.usage.value.cost.Some?
    && o.result.usage.value.tokens.value.priced == PricedUnits(o.executed.payload)
  }

  /** A producer emitted one valid, non-empty text. */
  predicate Emitted(o: CallObservation) {
    o.scheduledCall.actor.ProducerA? ==>
      && o.result.status.Valid? && ARTIFACT_TEXT in o.result.output && o.result.output[ARTIFACT_TEXT].TextValue?
      && o.result.output[ARTIFACT_TEXT].text != []
  }

  lemma {:induction false} ResponseIdsExactly(calls: seq<CallObservation>, id: Text)
    ensures id in ResponseIds(calls) <==> exists j :: 0 <= j < |calls| && calls[j].result.responseId == Some(id)
  {
    if calls != [] {
      var n := |calls| - 1;
      ResponseIdsExactly(calls[..n], id);
      if j :| 0 <= j < |calls| && calls[j].result.responseId == Some(id) && j < n {
        assert calls[..n][j] == calls[j];
      }
      if j :| 0 <= j < n && calls[..n][j].result.responseId == Some(id) {
        assert calls[j] == calls[..n][j];
      }
    }
  }

  /** The checks on a recorded call, in the order the run makes them: each code says what was wrong, and
      that nothing checked before it was. */
  method Review(deadline: nat, ghost calls: seq<CallObservation>, o: CallObservation, responseIds: set<Text>)
    returns (code: Option<Code>)
    requires forall id :: id in responseIds <==> id in ResponseIds(calls)
    ensures code == Objection(deadline, calls, o)
    ensures code.None? <==>
      FreshId(calls, o.result) && InTime(deadline, o.result) && !o.result.status.ProviderError? && Accounted(o) && Emitted(o)
    ensures code == Some(DuplicateResponseId) <==> !FreshId(calls, o.result)
    ensures code == Some(DeadlineMissed) <==> FreshId(calls, o.result) && !InTime(deadline, o.result)
    ensures code == Some(ProviderFailed) <==>
      FreshId(calls, o.result) && InTime(deadline, o.result) && o.result.status.ProviderError?
    ensures code == Some(Accounting) <==>
      FreshId(calls, o.result) && InTime(deadline, o.result) && !o.result.status.ProviderError? && !Accounted(o)
  {
    var r := o.result;
    if r.responseId.Some? {
      ResponseIdsExactly(calls, r.responseId.value);
    }
    if r.responseId.Some? && r.responseId.value in responseIds {
      return Some(DuplicateResponseId);
    }
    if r.latency > deadline || r.status.DeadlineExceeded? {
      return Some(DeadlineMissed);
    }
    if r.status.ProviderError? {
      return Some(ProviderFailed);
    }
    if r.status.AccountingError? {
      return Some(Accounting);
    }
    if r.usage.None? || r.usage.value.tokens.None? || r.usage.value.cost.None? {
      return Some(Accounting);
    }
    if r.usage.value.tokens.value.priced != PricedUnits(o.executed.payload) {
      return Some(Accounting);
    }
    if o.scheduledCall.actor.ProducerA? && EmittedText(r).None? {
      return Some(ArtifactMismatch);
    }
    code := None;
  }

  /** The arm observation of a responder that came through, if its priced total reconciles. */
  method SettleArm(c: Setting, ghost log: Log, o: CallObservation, callById: map<CallId, CallObservation>)
    returns (settled: Result<ArmObservation, Code>)
    requires Ready(c) && callById == Made(log.calls)
    requires o.scheduledCall.sample in ArmsBySample(c.manifest) && o.scheduledCall.actor.ResponderB?
    requires ArmFor(c.manifest, o.scheduledCall).sample == o.scheduledCall.sample
    requires Objection(c.deadline, log.calls, o).None?
    ensures Record(c, log, ArmFor(c.manifest, o.scheduledCall), o) ==
      if settled.Ok? then Log(log.calls + [o], log.arms + [settled.value], None)
      else Log(log.calls + [o], log.arms, Some(Failure(settled.error, Some(o.scheduledCall), |log.calls|)))
  {
    var arm := ArmFor(c.manifest, o.scheduledCall);
    if Call(arm.sample, ProducerA) !in callById {
      return Err(ArtifactMismatch);
    }
    var outcome := ArmOutcome(c, arm, callById[Call(arm.sample, ProducerA)], o);
    settled := if outcome.pricedUnits != ArmUnits(arm) then Err(Accounting) else Ok(outcome);
  }

  lemma MadeGrows(calls: seq<CallObservation>, o: CallObservation)
    ensures Made(calls + [o]) == Made(calls)[o.scheduledCall := o]
    ensures ResponseIds(calls + [o])
      == ResponseIds(calls) + if o.result.responseId.Some? then [o.result.responseId.value] else []
  {
    assert (calls + [o])[..|calls|] == calls;
  }

  lemma ArtifactGrows(calls: seq<CallObservation>, o: CallObservation, x: SampleId)
    ensures ArtifactOf(calls + [o], x)
      == if o.scheduledCall == Call(x, ProducerA) then EmittedText(o.result) else ArtifactOf(calls, x)
  {
    MadeGrows(calls, o);
  }

  lemma ArtifactsGrow(calls: seq<CallObservation>, artifacts: map<SampleId, (CallId, Text)>, o: CallObservation)
    requires ArtifactsBooked(calls, artifacts)
    requires o.scheduledCall.actor.ProducerA? ==> EmittedText(o.result).Some?
    ensures ArtifactsBooked(
      calls + [o],
      if o.scheduledCall.actor.ProducerA?
      then artifacts[o.scheduledCall.sample := (o.scheduledCall, EmittedText(o.result).value)] else artifacts)
  {
    var sample := o.scheduledCall.sample;
    assert o.scheduledCall.actor.ProducerA? ==> o.scheduledCall == Call(sample, ProducerA);
    forall x ensures ArtifactOf(calls + [o], x) ==
                     if o.scheduledCall == Call(x, ProducerA) then EmittedText(o.result) else ArtifactOf(calls, x) {
      ArtifactGrows(calls, o, x);
    }
  }

  /** Recording an unobjected call keeps the dictionaries in step with the log. */
  lemma BooksGrow(
      calls: seq<CallObservation>, artifacts: map<SampleId, (CallId, Text)>,
      callById: map<CallId, CallObservation>, responseIds: set<Text>, o: CallObservation)
    requires Books(calls, artifacts, callById, responseIds)
    requires o.scheduledCall.actor.ProducerA? ==> EmittedText(o.result).Some?
    ensures Books(
      calls + [o],
      if o.scheduledCall.actor.ProducerA?
      then artifacts[o.scheduledCall.sample := (o.scheduledCall, EmittedText(o.result).value)] else artifacts,
      callById[o.scheduledCall := o],
      if o.result.responseId.Some? then responseIds + {o.result.responseId.value} else responseIds)
  {
    MadeGrows(calls, o);
    ArtifactsGrow(calls, artifacts, o);
  }

  /** What one turn of the loop adds to the run. */
  datatype Turn = Turn(call: Option<CallObservation>, arm: Option<ArmObservation>, stop: Option<Code>)

  function Added<T>(xs: seq<T>, x: Option<T>): seq<T> {
    if x.Some? then xs + [x.value] else xs
  }

  function After(log: Log, id: CallId, turn: Turn): Log {
    Log(Added(log.calls, turn.call), Added(log.arms, turn.arm),
        if turn.stop.Some? then Some(Failure(turn.stop.value, Some(id), |log.calls|)) else None)
  }

  /** One turn: the next call is made, reviewed and, for a responder, settled into its arm. */
  method TakeTurn(c: Setting, ghost log: Log, k: nat, artifacts: map<SampleId, (CallId, Text)>,
                  callById: map<CallId, CallObservation>, responseIds: set<Text>)
    returns (turn: Turn)
    requires Ready(c) && k == |log.calls| < |c.manifest.schedule| && log.failure.None?
    requires Books(log.calls, artifacts, callById, responseIds)
    ensures RunFrom(c, log) == RunFrom(c, After(log, c.manifest.schedule[k], turn))
    ensures turn.stop.None? ==>
      && turn.call.Some? && turn.call.value.scheduledCall == c.manifest.schedule[k]
      && (turn.call.value.scheduledCall.actor.ProducerA? ==> EmittedText(turn.call.value.result).Some?)
  {
    StepMakesProgress(c, log);
    var made := MakeCall(c, log, k, artifacts, callById, responseIds);
    if made.Err? {
      return Turn(None, None, Some(made.error));
    }
    var o := made.value;
    var objection := Review(c.deadline, log.calls, o, responseIds);
    if objection.Some? || o.scheduledCall.actor.ProducerA? {
      return Turn(Some(o), None, objection);
    }
    var settled := SettleArm(c, log, o, callById);
    turn := if settled.Ok? then Turn(Some(o), Some(settled.value), None) else Turn(Some(o), None, Some(settled.error));
  }

  /** What the loop has run, and the files it has written. */
  datatype Written = Written(log: Log, callFiles: seq<File<CallObservation>>, armFiles: seq<File<ArmObservation>>)

  predicate Extends(more: Log, log: Log) {
    log.calls <= more.calls && log.arms <= more.arms
  }

  lemma RecordExtends(c: Setting, log: Log, arm: ArmPlan, o: CallObservation)
    requires Ready(c) && arm.sample in ArmsBySample(c.manifest)
    ensures Extends(Record(c, log, arm, o), log)
  {
  }

  lemma StepExtends(c: Setting, log: Log)
    requires Ready(c) && |log.calls| < |c.manifest.schedule|
    ensures Extends(Step(c, log), log)
  {
    var id := c.manifest.schedule[|log.calls|];
    if id.sample in ArmsBySample(c.manifest) {
      ArmForSample(c.manifest, id);
      forall o ensures Extends(Record(c, log, ArmFor(c.manifest, id), o), log) {
        RecordExtends(c, log, ArmFor(c.manifest, id), o);
      }
    }
  }

  lemma {:induction false} RunFromExtends(c: Setting, log: Log)
    requires Ready(c)
    ensures Extends(RunFrom(c, log), log)
    decreases if log.failure.Some? then 0 else 1 + |c.manifest.schedule| - |log.calls|
  {
    if log.failure.None? && |log.calls| < |c.manifest.schedule| {
      StepMakesProgress(c, log);
      StepExtends(c, log);
      RunFromExtends(c, Step(c, log));
    }
  }

  lemma WriteAllStep<T>(name: T -> Bytes, contents: seq<T>, x: T, folder: seq<File<T>>)
    requires WriteAll(name, contents) == Some(folder)
    ensures WriteAll(name, contents + [x]) == Write(folder, name(x), x)
  {
    assert (contents + [x])[..|contents|] == contents;
  }

  /** The next call's file is never refused. */
  lemma CallIsWritten(c: Setting, log: Log)
    requires Ready(c) && RunFrom(c, log) == Execute(c)
    ensures WriteAll(CallName(c.callTag), log.calls).Some?
  {
    RunFromExtends(c, log);
    CallsAreWritten(c);
    PrefixIsWritten(CallName(c.callTag), log.calls, Execute(c).calls);
  }

  /** When an arm's file is refused, the arms of the whole run cannot be written. */
  lemma ArmIsRefused(c: Setting, log: Log)
    requires Ready(c) && RunFrom(c, log) == Execute(c)
    requires WriteAll(ArmName(c.manifest, c.sampleTag), log.arms).None?
    ensures ArmFiles(c).None?
  {
    RunFromExtends(c, log);
    if ArmFiles(c).Some? {
      PrefixIsWritten(ArmName(c.manifest, c.sampleTag), log.arms, Execute(c).arms);
    }
  }

  /** The whole schedule, with the dictionaries the loop keeps and the files it writes; it raises when the
      name of an arm's file is taken. */
  method ExecuteSchedule(c: Setting) returns (written: Option<Written>)
    requires Ready(c)
    ensures written.None? <==> ArmFiles(c).None?
    ensures written.Some? ==>
      && written.value.log == Execute(c)
      && Some(written.value.callFiles) == WriteAll(CallName(c.callTag), Execute(c).calls)
      && Some(written.value.armFiles) == WriteAll(ArmName(c.manifest, c.sampleTag), Execute(c).arms)
  {
    var artifacts: map<SampleId, (CallId, Text)> := map[];
    var callById: map<CallId, CallObservation> := map[];
    var responseIds: set<Text> := {};
    var calls: seq<CallObservation>, arms: seq<ArmObservation> := [], [];
    var failure: Option<Failure> := None;
    var callFiles: seq<File<CallObservation>>, armFiles: seq<File<ArmObservation>> := [], [];
    var k := 0;
    while k < |c.manifest.schedule| && failure.None?
      invariant 0 <= k <= |c.manifest.schedule|
      invariant failure.None? ==> |calls| == k && Books(calls, artifacts, callById, responseIds)
      invariant RunFrom(c, Log(calls, arms, failure)) == Execute(c)
      invariant WriteAll(CallName(c.callTag), calls) == Some(callFiles)
      invariant WriteAll(ArmName(c.manifest, c.sampleTag), arms) == Some(armFiles)
    {
      var id := c.manifest.schedule[k];
      ghost var log := Log(calls, arms, failure);
      var turn := TakeTurn(c, log, k, artifacts, callById, responseIds);
      if turn.call.Some? {
        var o := turn.call.value;
        WriteAllStep(CallName(c.callTag), calls, o, callFiles);
        CallIsWritten(c, After(log, id, turn));
        callFiles := Write(callFiles, CallName(c.callTag)(o), o).value;
        if turn.stop.None? {
          BooksGrow(calls, artifacts, callById, responseIds, o);
          if o.scheduledCall.actor.ProducerA? {
            artifacts := artifacts[o.scheduledCall.sample := (o.scheduledCall, EmittedText(o.result).value)];
          }
          callById := callById[o.scheduledCall := o];
          if o.result.responseId.Some? {
            responseIds := responseIds + {o.result.responseId.value};
          }
        }
        calls := calls + [o];
      }
      if turn.arm.Some? {
        var a := turn.arm.value;
        WriteAllStep(ArmName(c.manifest, c.sampleTag), arms, a, armFiles);
        var more := Write(armFiles, ArmName(c.manifest, c.sampleTag)(a), a);
        if more.None? {
          ArmIsRefused(c, After(log, id, turn));
          return None;
        }
        armFiles := more.value;
        arms := arms + [a];
      }
      if turn.stop.Some? {
        failure := Some(Failure(turn.stop.value, Some(id), k));
      }
      k := k + 1;
    }
    written := Some(Written(Log(calls, arms, failure), callFiles, armFiles));
  }

  // The replay

  lemma RepeatsGrow(ids: seq<Text>, id: Text)
    ensures Repeats(ids + [id]) <==> Repeats(ids) || id in ids
  {
    if id in ids {
      var i :| 0 <= i < |ids| && ids[i] == id;
      assert (ids + [id])[i] == (ids + [id])[|ids|];
    }
    if i, j :| 0 <= i < j < |ids| && ids[i] == ids[j] {
      assert (ids + [id])[i] == (ids + [id])[j];
    }
  }

  /** The response ids of the persisted calls, and whether any is repeated. */
  method CollectResponseIds(calls: seq<CallObservation>) returns (ids: seq<Text>, repeated: bool)
    ensures ids == ResponseIds(calls) && (repeated <==> Repeats(ids))
  {
    ids, repeated := [], false;
    var distinct: set<Text> := {};
    var k := 0;
    while k < |calls|
      invariant 0 <= k <= |calls|
      invariant ids == ResponseIds(calls[..k])
      invariant forall id :: id in distinct <==> id in ids
      invariant repeated <==> Repeats(ids)
    {
      assert calls[..k + 1][..k] == calls[..k];
      var id := calls[k].result.responseId;
      if id.Some? {
        RepeatsGrow(ids, id.value);
        repeated := repeated || id.value in distinct;
        ids := ids + [id.value];
        distinct := distinct + {id.value};
      }
      k := k + 1;
    }
    assert calls[..k] == calls;
  }

  /** Whether the persisted calls are numbered from zero and follow the frozen schedule. */
  method CheckOrder(m: Manifest, calls: seq<CallObservation>) returns (error: Option<ReplayError>)
    ensures error == (if exists k :: 0 <= k < |calls| && calls[k].index != k then Some(NotContiguous)
                      else if |calls| > |m.schedule| || exists k :: 0 <= k < |calls| && calls[k].scheduledCall != m.schedule[k]
                      then Some(NotScheduled)
                      else None)
  {
    for k := 0 to |calls|
      invariant forall i :: 0 <= i < k ==> calls[i].index == i
    {
      if calls[k].index != k {
        return Some(NotContiguous);
      }
    }
    if |calls| > |m.schedule| {
      return Some(NotScheduled);
    }
    for k := 0 to |calls|
      invariant forall i :: 0 <= i < k ==> calls[i].scheduledCall == m.schedule[i]
    {
      if calls[k].scheduledCall != m.schedule[k] {
        return Some(NotScheduled);
      }
    }
    error := None;
  }

  /** The persisted call is a planned one under its frozen request. */
  predicate UnderFrozenRequest(m: Manifest, o: CallObservation) {
    && o.scheduledCall.sample in ArmsBySample(m)
    && o.scheduledRequest == RequestDigest(CallOf(ArmsBySample(m)[o.scheduledCall.sample], o.scheduledCall.actor))
  }

  predicate Uncrossed(m: Manifest, o: CallObservation) {
    UnderFrozenRequest(m, o) && !CrossedResult(o.result, o.executed, m)
  }

  predicate FirstCrossed(m: Manifest, calls: seq<CallObservation>, k: nat, error: ReplayError) {
    && k < |calls| && !Uncrossed(m, calls[k]) && (forall i :: 0 <= i < k ==> Uncrossed(m, calls[i]))
    && error == if UnderFrozenRequest(m, calls[k]) then CrossedCallResult else CrossedRequest
  }

  /** Finds the first persisted call that crossed its frozen request or its result's identity, and which it was. */
  method CheckCalls(m: Manifest, calls: seq<CallObservation>) returns (error: Option<ReplayError>)
    ensures error == CrossedCall(m, calls, 0)
    ensures error.None? <==> forall i :: 0 <= i < |calls| ==> Uncrossed(m, calls[i])
    ensures error.Some? ==> exists k :: FirstCrossed(m, calls, k, error.value)
  {
    var expected := ArmsBySample(m);
    var k := 0;
    while k < |calls|
      invariant 0 <= k <= |calls| && forall i :: 0 <= i < k ==> Uncrossed(m, calls[i])
      invariant CrossedCall(m, calls, 0) == CrossedCall(m, calls, k)
    {
      var o := calls[k];
      if o.scheduledCall.sample !in expected {
        assert FirstCrossed(m, calls, k, CrossedRequest);
        return Some(CrossedRequest);
      }
      if o.scheduledRequest != RequestDigest(CallOf(expected[o.scheduledCall.sample], o.scheduledCall.actor)) {
        assert FirstCrossed(m, calls, k, CrossedRequest);
        return Some(CrossedRequest);
      }
      if CrossedResult(o.result, o.executed, m) {
        assert FirstCrossed(m, calls, k, CrossedCallResult);
        return Some(CrossedCallResult);
      }
      k := k + 1;
    }
    error := None;
  }

  /** The independent replay of a directory of evidence. */
  method ReplayEvidence(
      m: Manifest, thresholds: Analysis.Thresholds, standardError: seq<real> -> real, evidence: Evidence)
    returns (result: Result<Report, ReplayError>)
    ensures result == Replay(m, thresholds, standardError, evidence)
  {
    if evidence.report.None? {
      return Err(MissingReport);
    }
    var report := evidence.report.value;
    if !ValidReport(report) {
      return Err(InvalidReport);
    }
    if report.manifestDigest != m.digest {
      return Err(CrossedManifest);
    }
    var calls, arms := ReadSorted(evidence.calls), ReadSorted(evidence.arms);
    var disorder := CheckOrder(m, calls);
    if disorder.Some? {
      return Err(disorder.value);
    }
    var crossed := CheckCalls(m, calls);
    if crossed.Some? {
      return Err(crossed.value);
    }
    var ids, repeated := CollectResponseIds(calls);
    if repeated && !(report.failure.Some? && report.failure.value.code.DuplicateResponseId?) {
      return Err(RepeatedResponse);
    }
    if CallDigests(calls) != report.calls {
      return Err(CallsDiffer);
    }
    if ArmDigests(arms) != report.arms {
      return Err(ArmsDifferFromReport);
    }
    if report.completed {
      if report.scheduledCalls != 2 * |m.arms| || report.completedArms != |m.arms| || report.pricedUnits != TotalUnits(m) {
        return Err(CrossedTotals);
      }
      var analysis := Analysis.AnalyzeObservations(m, thresholds, standardError, Judgements(arms));
      if analysis.Err? || report.analysis != Some(analysis.value) {
        return Err(AnalysisDiffers);
      }
    } else if !evidence.partial {
      return Err(MissingPartial);
    }
    result := Ok(report);
  }
}
