/**
 The baseline run: one supervised call per planned pair key, stopped at the first call that does
 not succeed, folded into a report that an independent reconciliation accepts.
 */
module D0Run {
  import opened Wrappers
  import opened Scalars
  import opened Collections
  import opened EvidenceFiles

  datatype PairKey = PairKey(task: Text, environment: Text, replicate: nat, providerConfig: Text)

  datatype Authorization = Authorization(
    task: Text, providerConfig: Text, profile: Text, protocol: Text, identity: seq<Text>, pairKeys: seq<PairKey>)

  /** A request carries its authorization; its digest binds all of it. */
  datatype Request = Request(index: nat, pairKey: PairKey, authorization: Authorization)

  datatype Status = Succeeded | ProviderError | ExecutorError | DeadlineExceeded | CrossedIdentity | AccountingError

  datatype Usage = Usage(modelCalls: nat, input: nat, output: nat, cached: nat, cacheWrite: nat)
  datatype Cost = Cost(known: real, estimated: real)

  /** Usage is known when every count is there, cost when both amounts are. */
  datatype Accounting = Accounting(
    completed: bool, sent: bool, requests: nat, modelCalls: Option<nat>, input: Option<nat>, output: Option<nat>,
    cached: Option<nat>, cacheWrite: Option<nat>, known: Option<real>, estimated: Option<real>)

  /** An outcome receipt: whose it is, who evaluated it, what it cost, and whether the repair was complete. */
  datatype Receipt = Receipt(
    pairKey: PairKey, identity: seq<Text>, protocol: Text, configuration: seq<Text>, environment: Text,
    evaluator: seq<Text>, healthy: bool, excluded: bool, requests: nat, usage: Usage, cost: Cost,
    unknownDollars: bool, withinEnvelope: bool, wallTime: nat, complete: bool)

  datatype CallResult = CallResult(
    request: Request, status: Status, responseIds: seq<Text>, accounting: Accounting, receipt: Option<Receipt>,
    detail: Text)

  datatype Outcome = Raised | TimedOut | Returned(result: CallResult)

  datatype Observation = Observation(request: Request, result: CallResult)

  datatype Failure = Failure(code: Status, index: nat, request: Request)

  datatype Log = Log(observations: seq<Observation>, receipts: seq<Receipt>, failure: Option<Failure>)

  /** The surroundings of a run; `authority` stands for the receipt checks that nothing here depends on. */
  datatype Setting = Setting(
    auth: Authorization, replicates: nat, evaluator: seq<Text>, authority: Receipt -> bool,
    executor: (nat, Request) -> Outcome, tag: PairKey -> Bytes)

  // Records

  predicate ValidAuthorization(a: Authorization) {
    && a.pairKeys != [] && (forall k :: 0 <= k < |a.pairKeys| ==> a.pairKeys[k].replicate == k)
    && (forall j, k :: 0 <= j < k < |a.pairKeys| ==> a.pairKeys[j].environment == a.pairKeys[k].environment)
    && (forall k :: 0 <= k < |a.pairKeys| ==> a.pairKeys[k].task == a.task && a.pairKeys[k].providerConfig == a.providerConfig)
  }

  predicate UsageKnown(a: Accounting) {
    a.modelCalls.Some? && a.input.Some? && a.output.Some? && a.cached.Some? && a.cacheWrite.Some?
  }

  predicate CostKnown(a: Accounting) {
    a.known.Some? && a.estimated.Some?
  }

  predicate ValidAccounting(a: Accounting) {
    && (a.sent <==> a.requests > 0) && (a.completed ==> a.sent)
    && (UsageKnown(a) ==> a.cached.value + a.cacheWrite.value <= a.input.value)
    && (a.known.Some? ==> a.known.value >= 0.0) && (a.estimated.Some? ==> a.estimated.value >= 0.0)
  }

  predicate Repeats(ids: seq<Text>) {
    exists i, j :: 0 <= i < j < |ids| && ids[i] == ids[j]
  }

  predicate ValidResult(r: CallResult) {
    && ValidAccounting(r.accounting) && !Repeats(r.responseIds)
    && (forall i :: 0 <= i < |r.responseIds| ==> r.responseIds[i] != [])
    && (if r.status.Succeeded? then r.receipt.Some? && r.detail == [] && r.responseIds != [] && r.accounting.completed
        else r.receipt.None? && r.detail != [])
  }

  const UNKNOWN_FAILURE: Accounting := Accounting(false, true, 1, None, None, None, None, None, None, None)

  const DETAIL: Text := [63]

  function FailedResult(request: Request, status: Status, accounting: Accounting): CallResult {
    CallResult(request, status, [], accounting, None, DETAIL)
  }

  /** The supervised call; anything that is not a valid result becomes a failed one. */
  function Supervised(request: Request, outcome: Outcome): CallResult {
    match outcome
    case Raised => FailedResult(request, ExecutorError, UNKNOWN_FAILURE)
    case TimedOut => FailedResult(request, DeadlineExceeded, UNKNOWN_FAILURE)
    case Returned(r) => if ValidResult(r) then r else FailedResult(request, ExecutorError, UNKNOWN_FAILURE)
  }

  /** The accounting repeats the receipt's costs, which are known and within the epoch. */
  predicate AccountsFor(a: Accounting, r: Receipt, responses: nat) {
    && a.requests == r.requests && a.modelCalls == Some(r.usage.modelCalls) && a.input == Some(r.usage.input)
    && a.output == Some(r.usage.output) && a.cached == Some(r.usage.cached) && a.cacheWrite == Some(r.usage.cacheWrite)
    && a.known == Some(r.cost.known) && a.estimated == Some(r.cost.estimated)
    && !r.unknownDollars && r.withinEnvelope && responses == r.requests
  }

  /** The receipt is the pinned evaluator's, healthy, not excluded and within the epoch. */
  predicate Authoritative(c: Setting, r: Receipt) {
    && r.evaluator == c.evaluator && r.healthy && !r.excluded && !r.unknownDollars && r.withinEnvelope
    && c.authority(r)
  }

  /** What is wrong with a valid result for this request, if anything. */
  function Objection(c: Setting, request: Request, seen: set<Text>, r: CallResult): Option<Status>
    requires ValidResult(r)
  {
    if r.request != request then Some(CrossedIdentity)
    else if r.status.Succeeded? && !Authoritative(c, r.receipt.value) then Some(CrossedIdentity)
    else if r.status.Succeeded? && (r.receipt.value.identity != c.auth.identity || r.receipt.value.protocol != c.auth.protocol
                                    || r.receipt.value.pairKey != request.pairKey) then Some(CrossedIdentity)
    else if r.status.Succeeded? && !AccountsFor(r.accounting, r.receipt.value, |r.responseIds|) then Some(AccountingError)
    else if exists i :: 0 <= i < |r.responseIds| && r.responseIds[i] in seen then Some(CrossedIdentity)
    else None
  }

  /** The result as it is recorded: replaced by a failed one when there is an objection. */
  function Judged(c: Setting, request: Request, seen: set<Text>, r: CallResult): (judged: CallResult)
    requires ValidResult(r)
    ensures ValidResult(judged) && judged.request == request
    ensures forall i :: 0 <= i < |judged.responseIds| ==> judged.responseIds[i] !in seen
  {
    var objection := Objection(c, request, seen, r);
    if objection.Some? then FailedResult(request, objection.value, r.accounting) else r
  }

  // The run on its log

  function ResponseIds(observations: seq<Observation>): seq<Text> {
    if observations == [] then []
    else ResponseIds(observations[..|observations| - 1]) + observations[|observations| - 1].result.responseIds
  }

  function SeenIds(observations: seq<Observation>): set<Text> {
    set id | id in ResponseIds(observations)
  }

  function RequestAt(c: Setting, k: nat): Request
    requires k < |c.auth.pairKeys|
  {
    Request(k, c.auth.pairKeys[k], c.auth)
  }

  lemma SupervisedIsValid(request: Request, outcome: Outcome)
    ensures ValidResult(Supervised(request, outcome))
  {
  }

  function Step(c: Setting, log: Log): Log
    requires |log.observations| < |c.auth.pairKeys|
  {
    var k := |log.observations|;
    var request := RequestAt(c, k);
    SupervisedIsValid(request, c.executor(k, request));
    var result := Judged(c, request, SeenIds(log.observations), Supervised(request, c.executor(k, request)));
    var observations := log.observations + [Observation(request, result)];
    if result.status.Succeeded? then
      Log(observations, log.receipts + [result.receipt.value], None)
    else Log(observations, log.receipts, Some(Failure(result.status, k, request)))
  }

  function RunFrom(c: Setting, log: Log): Log
    decreases if log.failure.Some? then 0 else 1 + |c.auth.pairKeys| - |log.observations|
  {
    if log.failure.Some? || |log.observations| >= |c.auth.pairKeys| then log else RunFrom(c, Step(c, log))
  }

  function Execute(c: Setting): Log {
    RunFrom(c, Log([], [], None))
  }

  // The report

  datatype Totals = Totals(
    requests: int, modelCalls: int, input: int, output: int, cached: int, cacheWrite: int,
    known: real, estimated: real, unknownUsage: int, unknownCost: int)

  function NoTotals(): Totals {
    Totals(0, 0, 0, 0, 0, 0, 0.0, 0.0, 0, 0)
  }

  function OrZero(n: Option<nat>): nat {
    if n.Some? then n.value else 0
  }

  function OrNothing(x: Option<real>): real {
    if x.Some? then x.value else 0.0
  }

  function Plus(t: Totals, a: Accounting): Totals {
    Totals(t.requests + a.requests, t.modelCalls + OrZero(a.modelCalls), t.input + OrZero(a.input),
           t.output + OrZero(a.output), t.cached + OrZero(a.cached), t.cacheWrite + OrZero(a.cacheWrite),
           t.known + OrNothing(a.known), t.estimated + OrNothing(a.estimated),
           t.unknownUsage + (if UsageKnown(a) then 0 else 1), t.unknownCost + if CostKnown(a) then 0 else 1)
  }

  /** The totals of the observed calls. */
  function Fold(observations: seq<Observation>): Totals {
    if observations == [] then NoTotals()
    else Plus(Fold(observations[..|observations| - 1]), observations[|observations| - 1].result.accounting)
  }

  datatype Headroom = HasHeadroom | Saturated | UniformFailure

  /** The sorted receipt digests are known by the multiset of receipts. */
  datatype Assessment = Assessment(
    status: Headroom, receipts: nat, complete: nat, failures: nat, protocol: Text, digests: multiset<Receipt>)

  datatype ObservationDigest = ObservationDigest(observation: Observation)

  datatype Report = Report(
    authorization: Authorization, completed: bool, scheduled: seq<PairKey>, calls: seq<ObservationDigest>,
    receipts: seq<Receipt>, completedCalls: nat, totals: Totals, headroom: Option<Assessment>, failure: Option<Failure>)

  function Complete(receipts: seq<Receipt>): nat {
    if receipts == [] then 0
    else Complete(receipts[..|receipts| - 1]) + if receipts[|receipts| - 1].complete then 1 else 0
  }

  /** The receipts form one panel: one protocol, one configuration, one evaluator environment. */
  predicate OnePanel(receipts: seq<Receipt>) {
    forall i :: 0 <= i < |receipts| ==>
      && receipts[i].protocol == receipts[0].protocol && receipts[i].configuration == receipts[0].configuration
      && receipts[i].environment == receipts[0].environment
      && receipts[i].pairKey.environment == receipts[0].pairKey.environment
  }

  predicate HasReplicate(receipts: seq<Receipt>, replicate: nat) {
    exists i :: 0 <= i < |receipts| && receipts[i].pairKey.replicate == replicate
  }

  /** Every sampling replicate below `count` has exactly one receipt. */
  predicate CoversReplicates(receipts: seq<Receipt>, count: nat) {
    && |receipts| == count
    && (forall i, j :: 0 <= i < j < |receipts| ==> receipts[i].pairKey != receipts[j].pairKey)
    && (forall k :: 0 <= k < count ==> HasReplicate(receipts, k))
    && (forall i :: 0 <= i < |receipts| ==> receipts[i].pairKey.replicate < count)
  }

  /** The baseline's headroom, unless the receipts are refused, or are not one covering panel. */
  function AssessHeadroom(c: Setting, receipts: seq<Receipt>, count: nat): Option<Assessment> {
    if receipts == [] || (exists i :: 0 <= i < |receipts| && (!Authoritative(c, receipts[i]) || receipts[i].identity != c.auth.identity))
       || !OnePanel(receipts) || !CoversReplicates(receipts, count)
    then None
    else
      var complete := Complete(receipts);
      var failures := if complete <= |receipts| then |receipts| - complete else 0;
      Some(Assessment(if complete > 0 && failures > 0 then HasHeadroom else if complete > 0 then Saturated else UniformFailure,
                      |receipts|, complete, failures, receipts[0].protocol, multiset(receipts)))
  }

  function Digests(observations: seq<Observation>): (digests: seq<ObservationDigest>)
    ensures |digests| == |observations| && forall i :: 0 <= i < |digests| ==> digests[i] == ObservationDigest(observations[i])
  {
    seq(|observations|, i requires 0 <= i < |observations| => ObservationDigest(observations[i]))
  }

  /** The report of a run, unless its headroom assessment raises. */
  function ReportOf(c: Setting, log: Log): Option<Report> {
    var completed := log.failure.None? && |log.receipts| == |c.auth.pairKeys|;
    var headroom := if completed then AssessHeadroom(c, log.receipts, c.replicates) else None;
    if completed && headroom.None? then None
    else Some(Report(c.auth, completed, c.auth.pairKeys, Digests(log.observations), log.receipts, |log.receipts|,
                     Fold(log.observations), headroom, log.failure))
  }

  predicate ValidReport(r: Report) {
    if r.completed then
      r.failure.None? && r.headroom.Some? && r.completedCalls == |r.scheduled| == |r.receipts|
    else r.failure.Some? && r.headroom.None?
  }

  // Reconciliation and replay

  function SuccessfulReceipts(observations: seq<Observation>): seq<Option<Receipt>> {
    if observations == [] then []
    else
      SuccessfulReceipts(observations[..|observations| - 1])
      + if observations[|observations| - 1].result.status.Succeeded? then [observations[|observations| - 1].result.receipt] else []
  }

  function Present(receipts: seq<Receipt>): (present: seq<Option<Receipt>>)
    ensures |present| == |receipts| && forall i :: 0 <= i < |present| ==> present[i] == Some(receipts[i])
  {
    seq(|receipts|, i requires 0 <= i < |receipts| => Some(receipts[i]))
  }

  /** What an independent reader of the evidence requires of the report. */
  predicate Reconciles(report: Report, observations: seq<Observation>, auth: Authorization) {
    && report.authorization == auth && report.scheduled == auth.pairKeys && report.calls == Digests(observations)
    && (forall k :: 0 <= k < |observations| ==> observations[k].request.index == k)
    && |observations| <= |auth.pairKeys|
    && (forall k :: 0 <= k < |observations| ==> observations[k].request.pairKey == auth.pairKeys[k])
    && (forall k :: 0 <= k < |observations| ==> observations[k].request.authorization == auth)
    && SuccessfulReceipts(observations) == Present(report.receipts)
    && !Repeats(ResponseIds(observations))
    && report.completedCalls == |SuccessfulReceipts(observations)| && report.totals == Fold(observations)
  }

  // The public proof

  datatype ReportDigest = ReportDigest(report: Report)

  datatype Proof = Proof(
    authorization: Authorization, report: ReportDigest, evaluator: seq<Text>, receipts: seq<Receipt>,
    complete: nat, failures: nat, headroom: Assessment, requests: int, modelCalls: int, known: real, estimated: real)

  function ReceiptKey(r: Receipt): PairKey {
    r.pairKey
  }

  function Requests(r: Receipt): int {
    r.requests
  }

  function ModelCalls(r: Receipt): int {
    r.usage.modelCalls
  }

  function Known(r: Receipt): real {
    r.cost.known
  }

  function Estimated(r: Receipt): real {
    r.cost.estimated
  }

  function RealSumBy(f: Receipt -> real, receipts: seq<Receipt>): real {
    if receipts == [] then 0.0 else RealSumBy(f, receipts[..|receipts| - 1]) + f(receipts[|receipts| - 1])
  }

  predicate CoversSchedule(receipts: seq<Receipt>, keys: seq<PairKey>) {
    var byKey := IndexBy(ReceiptKey, receipts);
    && |byKey| == |receipts| && byKey.Keys == set k | k in keys
  }

  /** The receipts in schedule order, each found by its pair key. */
  function InScheduleOrder(receipts: seq<Receipt>, keys: seq<PairKey>): seq<Receipt>
    requires CoversSchedule(receipts, keys)
  {
    var byKey := IndexBy(ReceiptKey, receipts);
    seq(|keys|, k requires 0 <= k < |keys| => assert keys[k] in byKey.Keys; byKey[keys[k]])
  }

  /** The report is that of one complete, healthy baseline of this authorization. */
  predicate HealthyReport(report: Report, auth: Authorization) {
    && report.authorization == auth && report.scheduled == auth.pairKeys && report.completed
    && report.headroom.Some? && report.headroom.value.status.HasHeadroom? && report.headroom.value.protocol == auth.protocol
    && report.completedCalls == |auth.pairKeys| && |report.receipts| == |auth.pairKeys|
    && report.totals.requests > 0 && report.totals.modelCalls == report.totals.requests
    && report.totals.unknownUsage == 0 && report.totals.unknownCost == 0
  }

  predicate ReceiptInPlace(r: Receipt, auth: Authorization, evaluator: seq<Text>) {
    && r.identity == auth.identity && r.protocol == auth.protocol && r.evaluator == evaluator
    && r.requests > 0 && r.healthy && !r.excluded && !r.unknownDollars && r.withinEnvelope
  }

  predicate AddsUp(receipts: seq<Receipt>, totals: Totals) {
    && SumBy(Requests, receipts) == totals.requests && SumBy(ModelCalls, receipts) == totals.modelCalls
    && RealSumBy(Known, receipts) == totals.known && RealSumBy(Estimated, receipts) == totals.estimated
  }

  /** The proof that a completed run publishes, unless one of its checks raises. */
  function PublicProof(report: Report, auth: Authorization): Option<Proof> {
    if !HealthyReport(report, auth) || !CoversSchedule(report.receipts, auth.pairKeys) then None
    else
      var receipts, headroom := InScheduleOrder(report.receipts, auth.pairKeys), report.headroom.value;
      if headroom.digests != multiset(receipts) || headroom.receipts != |receipts| || receipts == [] then None
      else if exists i :: 0 <= i < |receipts| && !ReceiptInPlace(receipts[i], auth, receipts[0].evaluator) then None
      else if !AddsUp(receipts, report.totals) then None
      else
        var complete := Complete(receipts);
        if complete != headroom.complete || complete + headroom.failures != |receipts| || complete == 0 || headroom.failures == 0
        then None
        else Some(Proof(auth, ReportDigest(report), receipts[0].evaluator, receipts, complete, headroom.failures, headroom,
                        report.totals.requests, report.totals.modelCalls, report.totals.known, report.totals.estimated))
  }

  /** A run that returned: its report, and the proof that a completed one publishes. */
  datatype Ending = Ending(report: Report, proof: Option<Proof>)

  /** The whole run, or nothing when it raises instead of returning. */
  function Run(c: Setting): Option<Ending> {
    if !ValidAuthorization(c.auth) then None
    else
      var log := Execute(c);
      var report := ReportOf(c, log);
      if report.None? || !ValidReport(report.value) || !Reconciles(report.value, log.observations, c.auth) then None
      else if !report.value.completed then Some(Ending(report.value, None))
      else
        var proof := PublicProof(report.value, c.auth);
        if proof.None? then None else Some(Ending(report.value, proof))
  }

  function CallName(tag: PairKey -> Bytes): Observation -> Bytes {
    (o: Observation) => NumberedName(6, o.request.index, tag(o.request.pairKey))
  }

  datatype ReplayError = CrossedAuthorization | InvalidReport | NotReconciled | CrossedProof | UnexpectedProof

  /** What a run leaves on disk. */
  datatype Evidence = Evidence(
    authorization: Authorization, report: Report, calls: seq<File<Observation>>, proof: Option<Proof>)

  /** Reads the call files in name order and checks the report, and then its proof, against them. */
  function Replay(auth: Authorization, evidence: Evidence): Result<Report, ReplayError> {
    var report := evidence.report;
    if evidence.authorization != auth then Err(CrossedAuthorization)
    else if !ValidReport(report) then Err(InvalidReport)
    else if !Reconciles(report, ReadSorted(evidence.calls), auth) then Err(NotReconciled)
    else if report.completed then
      if evidence.proof.None? || evidence.proof != PublicProof(report, auth) then Err(CrossedProof) else Ok(report)
    else if evidence.proof.Some? then Err(UnexpectedProof)
    else Ok(report)
  }
}
