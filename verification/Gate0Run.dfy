/**
 The forced-exchange run: the schedule is executed call by call against an arbitrary executor,
 every call and arm is persisted as it completes, and the persisted evidence is replayed
 independently. A run stops at the first thing that goes wrong.
 */
module Gate0Run {
  import opened Wrappers
  import opened Scalars
  import opened Collections
  import opened EvidenceFiles
  import opened Gate0Plan
  import Analysis = Gate0Analysis

  datatype Provenance = Fixture | Live

  datatype Status = Valid | InvalidOutput | ProviderError | AccountingError | DeadlineExceeded

  datatype Tokens = Tokens(priced: nat, output: nat, cached: nat, cacheWrite: nat)
  datatype Cost = Cost(known: real, estimated: real)

  /** Unknown usage has no token counts, unknown cost no dollars. */
  datatype Usage = Usage(tokens: Option<Tokens>, cost: Option<Cost>)

  datatype Json = TextValue(text: Text) | OtherValue(canonical: Bytes)

  /** The digest that binds a call's identity to its request. */
  datatype CallContext = CallContext(callId: CallId, request: Digest<Payload>)

  datatype CallResult = CallResult(
    callId: CallId, request: Digest<Payload>, context: CallContext,
    pairKey: Digest<PairKey>, providerConfig: Text, requestSent: bool, responseId: Option<Text>,
    output: map<Text, Json>, usage: Option<Usage>, latency: nat, status: Status, detail: Option<Text>)

  /** What the supervised executor did with a call: an exception, silence past the deadline, or a result. */
  datatype Outcome = Raised | TimedOut(elapsed: nat) | Returned(result: CallResult)

  datatype CallObservation = CallObservation(
    index: nat, manifestDigest: Text, provenance: Provenance, scheduledCall: CallId,
    scheduledRequest: Digest<Payload>, executed: CallPlan, pairedProducer: Option<CallId>, result: CallResult)

  datatype CallDigest = CallDigest(observation: CallObservation)

  datatype ArmObservation = ArmObservation(
    sample: SampleId, manifestDigest: Text, provenance: Provenance, armPlan: Digest<ArmPlan>,
    producer: CallDigest, responder: CallDigest, delivered: Option<Digest<Text>>,
    pricedUnits: nat, knownCost: real, estimatedCost: real, observation: Analysis.Observation)

  datatype ArmDigest = ArmDigest(observation: ArmObservation)

  datatype Code =
    | ExecutorFailed | ProviderFailed | Accounting | DeadlineMissed
    | CrossedIdentity | DuplicateResponseId | ArtifactMismatch

  datatype Failure = Failure(code: Code, call: Option<CallId>, index: nat)

  datatype Report = Report(
    manifestDigest: Text, authorization: Option<Text>, profile: Option<Text>, provenance: Provenance,
    completed: bool, scheduledCalls: nat, completedCalls: nat, completedArms: nat, pricedUnits: int,
    knownCost: real, estimatedCost: real, calls: seq<CallDigest>, arms: seq<ArmDigest>,
    failure: Option<Failure>, analysis: Option<Analysis.Report>, unknownUsage: nat, unknownCost: nat, passed: bool)

  /** A run's surroundings. The executor is any function of the call it is handed. */
  datatype Setting = Setting(
    manifest: Manifest, provenance: Provenance, authorization: Option<Text>, profile: Option<Text>,
    deadline: nat, thresholds: Analysis.Thresholds, standardError: seq<real> -> real,
    callTag: CallId -> Bytes, sampleTag: SampleId -> Bytes, executor: (nat, CallPlan) -> Outcome)

  /** What has been recorded so far. */
  datatype Log = Log(calls: seq<CallObservation>, arms: seq<ArmObservation>, failure: Option<Failure>)

  // Results

  const ARTIFACT_TEXT: Text := [97, 114, 116, 105, 102, 97, 99, 116, 95, 116, 101, 120, 116]
  const ANSWER: Text := [97, 110, 115, 119, 101, 114]

  predicate ValidUsage(u: Usage) {
    && (u.tokens.Some? ==> u.tokens.value.cached + u.tokens.value.cacheWrite <= u.tokens.value.priced)
    && (u.cost.Some? ==> u.cost.value.known >= 0.0 && u.cost.value.estimated >= 0.0)
  }

  predicate Opaque(id: Text) {
    0 < |id| <= 256 && forall i :: 0 <= i < |id| ==> !Space(id[i])
  }

  /** What the result model accepts; anything else surfaces as an executor error. */
  predicate ValidResult(r: CallResult) {
    var analyzable := r.status.Valid? || r.status.InvalidOutput?;
    && (r.usage.Some? ==> ValidUsage(r.usage.value))
    && (r.responseId.Some? ==> Opaque(r.responseId.value))
    && (forall k :: k in r.output ==> Encodable(k) && (r.output[k].TextValue? ==> Encodable(r.output[k].text)))
    && (analyzable ==> r.requestSent && r.responseId.Some? && r.usage.Some?)
    && (r.status.Valid? ==> r.output != map[])
    && (r.status.DeadlineExceeded? ==> r.requestSent && r.responseId.None? && r.output == map[] && r.usage == Some(Usage(None, None)))
    && (!analyzable ==> r.detail.Some? && r.detail.value != [])
  }

  function RequestDigest(call: CallPlan): Digest<Payload> {
    Digest(call.payload)
  }

  function ContextOf(call: CallPlan): CallContext {
    CallContext(call.callId, RequestDigest(call))
  }

  /** A late call: sent, nothing received, usage and cost unknown. */
  function DeadlineResult(call: CallPlan, elapsed: nat, detail: Text): CallResult {
    CallResult(call.callId, RequestDigest(call), ContextOf(call), Digest(call.pairKey),
               call.pairKey.providerConfig, true, None, map[], Some(Usage(None, None)), elapsed,
               DeadlineExceeded, Some(detail))
  }

  const LATE: Text := [108, 97, 116, 101]

  function Max(a: nat, b: nat): nat {
    if a < b then b else a
  }

  /** The supervised call: none when the executor raised or returned something malformed. */
  function Supervised(deadline: nat, call: CallPlan, outcome: Outcome): Option<CallResult> {
    match outcome
    case Raised => None
    case TimedOut(elapsed) => Some(DeadlineResult(call, Max(deadline, elapsed), LATE))
    case Returned(r) =>
      if !ValidResult(r) then None
      else if !r.status.DeadlineExceeded? && r.latency > deadline then Some(DeadlineResult(call, Max(r.latency, deadline), LATE))
      else Some(r)
  }

  predicate CrossedResult(r: CallResult, call: CallPlan, m: Manifest) {
    || r.callId != call.callId || r.request != RequestDigest(call) || r.context != ContextOf(call)
    || r.pairKey != Digest(call.pairKey) || r.providerConfig != m.providerConfig
  }

  /** A producer's artifact: one valid, non-empty text. */
  function EmittedText(r: CallResult): (text: Option<Text>)
    ensures text.Some? ==> text.value != []
  {
    if r.status.Valid? && ARTIFACT_TEXT in r.output && r.output[ARTIFACT_TEXT].TextValue? && r.output[ARTIFACT_TEXT].text != []
    then Some(r.output[ARTIFACT_TEXT].text)
    else None
  }

  function PricedOf(r: CallResult): nat {
    if r.usage.Some? && r.usage.value.tokens.Some? then r.usage.value.tokens.value.priced else 0
  }

  function KnownCostOf(r: CallResult): real {
    if r.usage.Some? && r.usage.value.cost.Some? then r.usage.value.cost.value.known else 0.0
  }

  function EstimatedCostOf(r: CallResult): real {
    if r.usage.Some? && r.usage.value.cost.Some?
    then r.usage.value.cost.value.known + r.usage.value.cost.value.estimated else 0.0
  }

  // The responder's effective call

  predicate CarriesArtifact(arm: Arm) {
    arm.IntactExchange? || arm.MatchedNeutral? || arm.PrivateAOnly?
  }

  /** What the responder is really sent once its producer has spoken. */
  function EffectiveCall(scheduled: CallPlan, text: Text): CallPlan
    requires text != []
    requires CarriesArtifact(scheduled.callId.sample.arm) ==> scheduled.payload.artifact.Some?
  {
    match scheduled.callId.sample.arm
    case IntactExchange => scheduled.(payload := scheduled.payload.(artifact := Some(text)))
    case PrivateAOnly => scheduled.(payload := scheduled.payload.(artifact := Some(text)))
    case MatchedNeutral => scheduled.(payload := scheduled.payload.(artifact := Some(NeutralText(text))))
    case _ => scheduled
  }

  predicate SameIdentityAndPrice(effective: CallPlan, scheduled: CallPlan) {
    && RequestDigest(effective) == RequestDigest(scheduled) && ContextOf(effective) == ContextOf(scheduled)
    && PricedUnits(effective.payload) == PricedUnits(scheduled.payload)
  }

  // The conformance check, which every run starts with

  /** Arms with an exchange deliver an artifact. */
  predicate Delivers(m: Manifest) {
    forall i :: 0 <= i < |m.arms| ==> CarriesArtifact(m.arms[i].sample.arm) ==> m.arms[i].responder.artifact.Some?
  }

  ghost predicate Contains(s: Text, t: Text) {
    exists a: Text, b: Text :: s == a + t + b
  }

  /** A request of the arm spells out its item's expected answer. */
  ghost predicate Leaks(m: Manifest, arm: ArmPlan) {
    && arm.sample.item in ItemsById(m)
    && var answer := ItemsById(m)[arm.sample.item].expectedAnswer;
       Contains(PayloadText(arm.producer), answer) || Contains(PayloadText(arm.responder), answer)
  }

  /** A neutral arm is priced as its intact twin, and delivers another text of the same length. */
  predicate Twins(intact: ArmPlan, neutral: ArmPlan) {
    && ArmUnits(intact) == ArmUnits(neutral)
    && intact.responder.artifact.Some? && neutral.responder.artifact.Some?
    && |intact.responder.artifact.value| == |neutral.responder.artifact.value|
    && intact.responder.artifact != neutral.responder.artifact
  }

  predicate NeutralOf(intact: ArmPlan, neutral: ArmPlan) {
    intact.sample.arm.IntactExchange? && neutral.sample == intact.sample.(arm := MatchedNeutral)
  }

  predicate Withholds(m: Manifest) {
    forall i :: 0 <= i < |m.arms| ==> m.arms[i].sample.arm.PrivateBOnly? ==> m.arms[i].responder.artifact.None?
  }

  ghost predicate LeakFree(m: Manifest) {
    forall i :: 0 <= i < |m.arms| ==> !Leaks(m, m.arms[i])
  }

  predicate NeutralsMatch(m: Manifest) {
    forall i, j :: 0 <= i < |m.arms| && 0 <= j < |m.arms| && NeutralOf(m.arms[i], m.arms[j]) ==> Twins(m.arms[i], m.arms[j])
  }

  /** Deliveries are as the arms have them, no request spells out its answer, and neutral arms match. */
  ghost predicate Conforms(m: Manifest) {
    Delivers(m) && Withholds(m) && LeakFree(m) && NeutralsMatch(m)
  }

  // What the log says

  function CallKey(o: CallObservation): CallId {
    o.scheduledCall
  }

  function Made(calls: seq<CallObservation>): map<CallId, CallObservation> {
    IndexBy(CallKey, calls)
  }

  function ArtifactOf(calls: seq<CallObservation>, sample: SampleId): (text: Option<Text>)
    ensures text.Some? ==> text.value != []
  {
    if Call(sample, ProducerA) in Made(calls) then EmittedText(Made(calls)[Call(sample, ProducerA)].result) else None
  }

  function ResponseIds(calls: seq<CallObservation>): seq<Text> {
    if calls == [] then []
    else ResponseIds(calls[..|calls| - 1])
         + if calls[|calls| - 1].result.responseId.Some? then [calls[|calls| - 1].result.responseId.value] else []
  }

  /** The first objection to a call that came back under its own identity. */
  function Objection(deadline: nat, calls: seq<CallObservation>, o: CallObservation): Option<Code> {
    var r := o.result;
    if r.responseId.Some? && r.responseId.value in ResponseIds(calls) then Some(DuplicateResponseId)
    else if r.latency > deadline || r.status.DeadlineExceeded? then Some(DeadlineMissed)
    else if r.status.ProviderError? then Some(ProviderFailed)
    else if r.status.AccountingError? then Some(Accounting)
    else if r.usage.None? || r.usage.value.tokens.None? || r.usage.value.cost.None? then Some(Accounting)
    else if r.usage.value.tokens.value.priced != PricedUnits(o.executed.payload) then Some(Accounting)
    else if o.scheduledCall.actor.ProducerA? && EmittedText(r).None? then Some(ArtifactMismatch)
    else None
  }

  function Judged(m: Manifest, provenance: Provenance, arm: ArmPlan, r: CallResult): Analysis.Observation
    requires arm.sample.item in ItemsById(m)
  {
    var answered := ANSWER in r.output && r.output[ANSWER].TextValue?;
    var hardInvalid := r.status.InvalidOutput? || !answered;
    Analysis.Observation(
      m.digest, arm.sample, arm.template, arm.pairKey, m.providerConfig,
      if provenance.Fixture? then Analysis.DeterministicFixture else Analysis.ProviderResult,
      hardInvalid, !hardInvalid && r.output[ANSWER].text == ItemsById(m)[arm.sample.item].expectedAnswer)
  }

  function ArmOutcome(c: Setting, arm: ArmPlan, producer: CallObservation, o: CallObservation): ArmObservation
    requires arm.sample.item in ItemsById(c.manifest)
  {
    var delivered := o.executed.payload.artifact;
    ArmObservation(
      arm.sample, c.manifest.digest, c.provenance, Digest(arm), CallDigest(producer), CallDigest(o),
      if delivered.Some? then Some(Digest(delivered.value)) else None,
      PricedOf(producer.result) + PricedOf(o.result),
      KnownCostOf(producer.result) + KnownCostOf(o.result),
      EstimatedCostOf(producer.result) + EstimatedCostOf(o.result),
      Judged(c.manifest, c.provenance, arm, o.result))
  }

  // One step, and the run

  predicate Ready(c: Setting) {
    && Delivers(c.manifest)
    && forall sample :: sample in ArmsBySample(c.manifest) ==> sample.item in ItemsById(c.manifest)
  }

  function Fail(log: Log, code: Code, id: CallId): Log {
    log.(failure := Some(Failure(code, Some(id), |log.calls|)))
  }

  /** The next call of the schedule, on the log alone. */
  function Step(c: Setting, log: Log): Log
    requires Ready(c) && |log.calls| < |c.manifest.schedule|
  {
    var id := c.manifest.schedule[|log.calls|];
    if id.sample !in ArmsBySample(c.manifest) then Fail(log, CrossedIdentity, id)
    else
      ArmForSample(c.manifest, id);
      var arm := ArmFor(c.manifest, id);
      var scheduled := CallOf(arm, id.actor);
      if id.actor.ProducerA? then Attempt(c, log, arm, scheduled, None, scheduled)
      else
        var text := ArtifactOf(log.calls, id.sample);
        if text.None? then Fail(log, ArtifactMismatch, id)
        else
          var effective := EffectiveCall(scheduled, text.value);
          if !SameIdentityAndPrice(effective, scheduled) then Fail(log, ArtifactMismatch, id)
          else Attempt(c, log, arm, scheduled, Some(Call(id.sample, ProducerA)), effective)
  }

  function Attempt(
      c: Setting, log: Log, arm: ArmPlan, scheduled: CallPlan, paired: Option<CallId>, effective: CallPlan): Log
    requires Ready(c) && arm.sample in ArmsBySample(c.manifest)
  {
    var result := Supervised(c.deadline, effective, c.executor(|log.calls|, effective));
    if result.None? then Fail(log, ExecutorFailed, scheduled.callId)
    else if CrossedResult(result.value, effective, c.manifest) then Fail(log, CrossedIdentity, scheduled.callId)
    else
      Record(c, log, arm,
             CallObservation(|log.calls|, c.manifest.digest, c.provenance, scheduled.callId, RequestDigest(scheduled),
                             effective, paired, result.value))
  }

  /** The observation is kept, and the run goes on only if nothing about it is objectionable. */
  function Record(c: Setting, log: Log, arm: ArmPlan, o: CallObservation): Log
    requires Ready(c) && arm.sample in ArmsBySample(c.manifest)
  {
    var calls := log.calls + [o];
    var failed := (code: Code) => Log(calls, log.arms, Some(Failure(code, Some(o.scheduledCall), |log.calls|)));
    var objection := Objection(c.deadline, log.calls, o);
    if objection.Some? then failed(objection.value)
    else if o.scheduledCall.actor.ProducerA? then Log(calls, log.arms, None)
    else if Call(arm.sample, ProducerA) !in Made(log.calls) then failed(ArtifactMismatch)
    else
      var outcome := ArmOutcome(c, arm, Made(log.calls)[Call(arm.sample, ProducerA)], o);
      if outcome.pricedUnits != ArmUnits(arm) then failed(Accounting)
      else Log(calls, log.arms + [outcome], None)
  }

  /** Every step records a call or fails. */
  lemma StepMakesProgress(c: Setting, log: Log)
    requires Ready(c) && log.failure.None? && |log.calls| < |c.manifest.schedule|
    ensures Step(c, log).failure.None? ==> |Step(c, log).calls| == |log.calls| + 1
    ensures |Step(c, log).calls| <= |log.calls| + 1
  {
  }

  function RunFrom(c: Setting, log: Log): Log
    requires Ready(c)
    decreases if log.failure.Some? then 0 else 1 + |c.manifest.schedule| - |log.calls|
  {
    if log.failure.Some? || |log.calls| >= |c.manifest.schedule| then log
    else
      StepMakesProgress(c, log);
      RunFrom(c, Step(c, log))
  }

  function Execute(c: Setting): Log
    requires Ready(c)
  {
    RunFrom(c, Log([], [], None))
  }

  // The report

  function CallDigests(calls: seq<CallObservation>): (digests: seq<CallDigest>)
    ensures |digests| == |calls| && forall i :: 0 <= i < |calls| ==> digests[i] == CallDigest(calls[i])
  {
    seq(|calls|, i requires 0 <= i < |calls| => CallDigest(calls[i]))
  }

  function ArmDigests(arms: seq<ArmObservation>): (digests: seq<ArmDigest>)
    ensures |digests| == |arms| && forall i :: 0 <= i < |arms| ==> digests[i] == ArmDigest(arms[i])
  {
    seq(|arms|, i requires 0 <= i < |arms| => ArmDigest(arms[i]))
  }

  function Judgements(arms: seq<ArmObservation>): (observations: seq<Analysis.Observation>)
    ensures |observations| == |arms| && forall i :: 0 <= i < |arms| ==> observations[i] == arms[i].observation
  {
    seq(|arms|, i requires 0 <= i < |arms| => arms[i].observation)
  }

  function Priced(o: CallObservation): int {
    PricedOf(o.result)
  }

  function UnknownUsage(o: CallObservation): int {
    if o.result.usage.Some? && o.result.usage.value.tokens.None? then 1 else 0
  }

  function UnknownCost(o: CallObservation): int {
    if o.result.usage.Some? && o.result.usage.value.cost.None? then 1 else 0
  }

  function RealSum(f: CallObservation -> real, calls: seq<CallObservation>): real {
    if calls == [] then 0.0 else RealSum(f, calls[..|calls| - 1]) + f(calls[|calls| - 1])
  }

  lemma {:induction false} CountsAreNatural(calls: seq<CallObservation>)
    ensures SumBy(UnknownUsage, calls) >= 0 && SumBy(UnknownCost, calls) >= 0
  {
    if calls != [] {
      CountsAreNatural(calls[..|calls| - 1]);
    }
  }

  /** The failure of a fully executed schedule that lacks an arm. */
  function Closing(m: Manifest, log: Log): Option<Failure> {
    if log.failure.None? && |log.calls| == 2 * |m.arms| && |log.arms| != |m.arms|
    then Some(Failure(CrossedIdentity, None, |log.calls|))
    else log.failure
  }

  /** The final report, or nothing when its own validation raises. */
  ghost function ReportOf(c: Setting, log: Log): Option<Report> {
    var m := c.manifest;
    var failure := Closing(m, log);
    var completed := failure.None? && |log.calls| == 2 * |m.arms|;
    var analysis :=
      if completed then Analysis.Analyze(m, c.thresholds, c.standardError, Judgements(log.arms)) else None;
    CountsAreNatural(log.calls);
    var report := Report(
                    m.digest, c.authorization, c.profile, c.provenance, completed, 2 * |m.arms|, |log.calls|, |log.arms|,
                    SumBy(Priced, log.calls),
                    RealSum((o: CallObservation) => KnownCostOf(o.result), log.calls),
                    RealSum((o: CallObservation) => EstimatedCostOf(o.result), log.calls),
                    CallDigests(log.calls), ArmDigests(log.arms), failure, analysis,
                    SumBy(UnknownUsage, log.calls), SumBy(UnknownCost, log.calls),
                    analysis.Some? && analysis.value.passed);
    if ValidReport(report) then Some(report) else None
  }

  function SourceOf(provenance: Provenance): Analysis.Source {
    if provenance.Fixture? then Analysis.DeterministicFixture else Analysis.ProviderResult
  }

  predicate ValidReport(r: Report) {
    && (r.provenance.Fixture? <==> r.authorization.None?) && (r.provenance.Fixture? <==> r.profile.None?)
    && r.scheduledCalls > 0
    && (if r.completed then
          && r.completedCalls == r.scheduledCalls && r.failure.None? && r.analysis.Some?
          && r.passed == r.analysis.value.passed && r.analysis.value.source == SourceOf(r.provenance)
        else
          r.failure.Some? && r.analysis.None? && !r.passed)
  }

  // The persisted evidence, and its replay

  datatype Evidence = Evidence(
    report: Option<Report>, partial: bool, calls: seq<File<CallObservation>>, arms: seq<File<ArmObservation>>)

  function CallName(tag: CallId -> Bytes): CallObservation -> Bytes {
    (o: CallObservation) => NumberedName(4, o.index, tag(o.scheduledCall))
  }

  function ArmName(m: Manifest, tag: SampleId -> Bytes): ArmObservation -> Bytes {
    (a: ArmObservation) =>
      if a.sample in ArmsBySample(m) then NumberedName(20, ArmsBySample(m)[a.sample].rank, tag(a.sample)) else []
  }

  /** Everything a run leaves on disk: nothing when the name of a file is taken, for then it raises. */
  function Persisted(c: Setting, log: Log, report: Report): Option<Evidence> {
    var calls, arms := WriteAll(CallName(c.callTag), log.calls), WriteAll(ArmName(c.manifest, c.sampleTag), log.arms);
    if calls.None? || arms.None? then None else Some(Evidence(Some(report), !report.completed, calls.value, arms.value))
  }

  datatype ReplayError =
    | MissingReport | InvalidReport | CrossedManifest | NotContiguous | NotScheduled | CrossedRequest
    | CrossedCallResult | RepeatedResponse | CallsDiffer | ArmsDifferFromReport | CrossedTotals
    | AnalysisDiffers | MissingPartial | NameTaken

  /** The first persisted call that is not the frozen one. */
  function CrossedCall(m: Manifest, calls: seq<CallObservation>, k: nat): Option<ReplayError>
    requires k <= |calls|
    decreases |calls| - k
  {
    if k == |calls| then None
    else
      var o := calls[k];
      if o.scheduledCall.sample !in ArmsBySample(m) then Some(CrossedRequest)
      else if o.scheduledRequest != RequestDigest(CallOf(ArmsBySample(m)[o.scheduledCall.sample], o.scheduledCall.actor))
      then Some(CrossedRequest)
      else if CrossedResult(o.result, o.executed, m) then Some(CrossedCallResult)
      else CrossedCall(m, calls, k + 1)
  }

  predicate Repeats(ids: seq<Text>) {
    exists i, j :: 0 <= i < j < |ids| && ids[i] == ids[j]
  }

  /** What replay finds wrong with the persisted calls, if anything. */
  function MisplacedCalls(m: Manifest, report: Report, calls: seq<CallObservation>): Option<ReplayError> {
    if exists k :: 0 <= k < |calls| && calls[k].index != k then Some(NotContiguous)
    else if |calls| > |m.schedule| || exists k :: 0 <= k < |calls| && calls[k].scheduledCall != m.schedule[k]
    then Some(NotScheduled)
    else
      var crossed := CrossedCall(m, calls, 0);
      if crossed.Some? then crossed
      else if Repeats(ResponseIds(calls)) && !(report.failure.Some? && report.failure.value.code.DuplicateResponseId?)
      then Some(RepeatedResponse)
      else if CallDigests(calls) != report.calls then Some(CallsDiffer)
      else None
  }

  /** What replay says once the calls are in order. */
  ghost function SettledArms(
      m: Manifest, thresholds: Analysis.Thresholds, standardError: seq<real> -> real, report: Report,
      arms: seq<ArmObservation>, partial: bool): Result<Report, ReplayError>
  {
    if ArmDigests(arms) != report.arms then Err(ArmsDifferFromReport)
    else if report.completed then
      if report.scheduledCalls != 2 * |m.arms| || report.completedArms != |m.arms| || report.pricedUnits != TotalUnits(m)
      then Err(CrossedTotals)
      else if Analysis.Analyze(m, thresholds, standardError, Judgements(arms)) != report.analysis
      then Err(AnalysisDiffers)
      else Ok(report)
    else if !partial then Err(MissingPartial)
    else Ok(report)
  }

  ghost function Replay(
      m: Manifest, thresholds: Analysis.Thresholds, standardError: seq<real> -> real, evidence: Evidence)
    : Result<Report, ReplayError>
  {
    if evidence.report.None? then Err(MissingReport)
    else
      var report := evidence.report.value;
      if !ValidReport(report) then Err(InvalidReport)
      else if report.manifestDigest != m.digest then Err(CrossedManifest)
      else
        var misplaced := MisplacedCalls(m, report, ReadSorted(evidence.calls));
        if misplaced.Some? then Err(misplaced.value)
        else SettledArms(m, thresholds, standardError, report, ReadSorted(evidence.arms), evidence.partial)
  }
}
