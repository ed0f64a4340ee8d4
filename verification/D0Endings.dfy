/**
 When a baseline run returns. A run that fails always does. A run in which every call succeeds has
 still to pass the headroom assessment and to publish its proof, and raises when it cannot.
 */
module D0Endings {
  import opened Wrappers
  import opened Scalars
  import opened Collections
  import opened EvidenceFiles
  import opened D0Run
  import opened D0Results

  // What the executor answers, before any run

  function Answer(c: Setting, k: nat): CallResult
    requires k < |c.auth.pairKeys|
  {
    Supervised(RequestAt(c, k), c.executor(k, RequestAt(c, k)))
  }

  /** Call `k` is answered with a success that nothing objects to by itself. */
  predicate GoodAnswer(c: Setting, k: nat)
    requires k < |c.auth.pairKeys|
  {
    var r := Answer(c, k);
    && ValidResult(r) && r.status.Succeeded? && r.request == RequestAt(c, k)
    && Authoritative(c, r.receipt.value)
    && r.receipt.value.identity == c.auth.identity && r.receipt.value.protocol == c.auth.protocol
    && r.receipt.value.pairKey == c.auth.pairKeys[k]
    && AccountsFor(r.accounting, r.receipt.value, |r.responseIds|)
  }

  predicate Disjoint(a: seq<Text>, b: seq<Text>) {
    forall i :: 0 <= i < |b| ==> b[i] !in a
  }

  /** Every call is answered well, and no response id is used twice. */
  ghost predicate Finishes(c: Setting) {
    && (forall k :: 0 <= k < |c.auth.pairKeys| ==> GoodAnswer(c, k))
    && forall j, k :: 0 <= j < k < |c.auth.pairKeys| ==> Disjoint(Answer(c, j).responseIds, Answer(c, k).responseIds)
  }

  ghost function AnswerReceipts(c: Setting): (receipts: seq<Receipt>)
    requires Finishes(c)
    ensures |receipts| == |c.auth.pairKeys|
    ensures forall k :: 0 <= k < |receipts| ==> GoodAnswer(c, k) && receipts[k] == Answer(c, k).receipt.value
  {
    seq(|c.auth.pairKeys|, k requires 0 <= k < |c.auth.pairKeys| => assert GoodAnswer(c, k); Answer(c, k).receipt.value)
  }

  // Finishing, exactly

  lemma {:induction false} ResponseIdsOf(observations: seq<Observation>, x: Text)
    ensures x in ResponseIds(observations)
      <==> exists j :: 0 <= j < |observations| && x in observations[j].result.responseIds
  {
    if observations != [] {
      var n := |observations| - 1;
      ResponseIdsOf(observations[..n], x);
      if j :| 0 <= j < |observations| && x in observations[j].result.responseIds && j < n {
        assert observations[..n][j] == observations[j];
      }
      if j :| 0 <= j < n && x in observations[..n][j].result.responseIds {
        assert observations[j] == observations[..n][j];
      }
    }
  }

  /** So far every observation is the executor's own answer. */
  ghost predicate Answered(c: Setting, log: Log) {
    && log.failure.None? && |log.observations| <= |c.auth.pairKeys|
    && forall k :: 0 <= k < |log.observations| ==> log.observations[k] == Observation(RequestAt(c, k), Answer(c, k))
  }

  lemma GoodAnswerStands(c: Setting, log: Log)
    requires Finishes(c) && Answered(c, log) && |log.observations| < |c.auth.pairKeys|
    ensures Answered(c, Step(c, log))
  {
    var k := |log.observations|;
    var r := Answer(c, k);
    assert GoodAnswer(c, k);
    SupervisedIsValid(RequestAt(c, k), c.executor(k, RequestAt(c, k)));
    forall i | 0 <= i < |r.responseIds| ensures r.responseIds[i] !in SeenIds(log.observations) {
      ResponseIdsOf(log.observations, r.responseIds[i]);
      forall j | 0 <= j < k ensures r.responseIds[i] !in log.observations[j].result.responseIds {
        assert Disjoint(Answer(c, j).responseIds, r.responseIds);
      }
    }
    assert Judged(c, RequestAt(c, k), SeenIds(log.observations), r) == r;
  }

  lemma {:induction false} GoodAnswersFinish(c: Setting, log: Log)
    requires Finishes(c) && Answered(c, log)
    ensures Answered(c, RunFrom(c, log))
    decreases |c.auth.pairKeys| - |log.observations|
  {
    if |log.observations| < |c.auth.pairKeys| {
      GoodAnswerStands(c, log);
      GoodAnswersFinish(c, Step(c, log));
    }
  }

  /** In a run without failure the recorded calls are the executor's own, good answers. */
  lemma RecordedAnswer(c: Setting, k: nat)
    requires Execute(c).failure.None? && k < |c.auth.pairKeys|
    ensures |Execute(c).observations| == |c.auth.pairKeys|
    ensures GoodAnswer(c, k) && Execute(c).observations[k] == Observation(RequestAt(c, k), Answer(c, k))
    ensures forall j :: 0 <= j < k ==> Disjoint(Execute(c).observations[j].result.responseIds, Answer(c, k).responseIds)
  {
    RunIsSound(c);
    var log := Execute(c);
    assert Recorded(c, log.observations, k) && log.observations[k].result.status.Succeeded?;
    var r, seen := Answer(c, k), SeenIds(log.observations[..k]);
    assert Objection(c, RequestAt(c, k), seen, r).None?;
    forall j | 0 <= j < k ensures Disjoint(log.observations[j].result.responseIds, r.responseIds) {
      forall i | 0 <= i < |r.responseIds| ensures r.responseIds[i] !in log.observations[j].result.responseIds {
        assert r.responseIds[i] !in seen;
        ResponseIdsOf(log.observations[..k], r.responseIds[i]);
        assert log.observations[..k][j] == log.observations[j];
      }
    }
  }

  /** A run ends without failure exactly when the executor answers every call well, with fresh ids. */
  lemma FinishesExactly(c: Setting)
    ensures Execute(c).failure.None? <==> Finishes(c)
    ensures Finishes(c) ==> Execute(c).receipts == AnswerReceipts(c)
  {
    if Finishes(c) {
      GoodAnswersFinish(c, Log([], [], None));
    }
    if Execute(c).failure.None? {
      forall k | 0 <= k < |c.auth.pairKeys| ensures GoodAnswer(c, k) {
        RecordedAnswer(c, k);
      }
      forall j, k | 0 <= j < k < |c.auth.pairKeys|
        ensures Disjoint(Answer(c, j).responseIds, Answer(c, k).responseIds)
      {
        RecordedAnswer(c, j);
        RecordedAnswer(c, k);
      }
      assert Finishes(c);
      RunIsSound(c);
      ReceiptCount(Execute(c).observations);
      assert |Present(Execute(c).receipts)| == |c.auth.pairKeys|;
      forall k | 0 <= k < |c.auth.pairKeys| ensures Execute(c).receipts[k] == AnswerReceipts(c)[k] {
        RecordedAnswer(c, k);
        FinishedReceipt(c, k);
      }
    }
  }

  // Publishing, exactly

  predicate OneConfiguration(receipts: seq<Receipt>) {
    forall i :: 0 <= i < |receipts| ==>
      receipts[i].configuration == receipts[0].configuration && receipts[i].environment == receipts[0].environment
  }

  predicate Mixed(receipts: seq<Receipt>) {
    && (exists i :: 0 <= i < |receipts| && receipts[i].complete)
    && (exists i :: 0 <= i < |receipts| && !receipts[i].complete)
  }

  /** One configuration and environment, some repairs complete and some not, one request a model call. */
  predicate Publishable(receipts: seq<Receipt>) {
    OneConfiguration(receipts) && Mixed(receipts) && SumBy(ModelCalls, receipts) == SumBy(Requests, receipts)
  }

  /** A run without failure is assessed exactly when the schedule has the frozen replicates and the
      receipts share one configuration and environment. */
  lemma AssessedExactly(c: Setting)
    requires ValidAuthorization(c.auth) && Execute(c).failure.None?
    ensures |Execute(c).receipts| == |c.auth.pairKeys|
    ensures AssessHeadroom(c, Execute(c).receipts, c.replicates).Some? <==>
      c.replicates == |c.auth.pairKeys| && OneConfiguration(Execute(c).receipts)
  {
    var receipts := Execute(c).receipts;
    FinishedRunCoversReplicates(c);
    forall i | 0 <= i < |receipts|
      ensures Authoritative(c, receipts[i]) && receipts[i].identity == c.auth.identity
      ensures receipts[i].protocol == receipts[0].protocol && receipts[i].pairKey.environment == receipts[0].pairKey.environment
    {
      FinishedReceipt(c, i);
      FinishedReceipt(c, 0);
    }
  }

  /** The accounting of each observation repeats its receipt. */
  predicate Matches(observations: seq<Observation>, receipts: seq<Receipt>) {
    && |observations| == |receipts|
    && forall k :: 0 <= k < |receipts| ==>
      AccountsFor(observations[k].result.accounting, receipts[k], |observations[k].result.responseIds|)
  }

  lemma {:induction false} TotalsOfReceipts(observations: seq<Observation>, receipts: seq<Receipt>)
    requires Matches(observations, receipts)
    ensures AddsUp(receipts, Fold(observations))
    ensures Fold(observations).unknownUsage == 0 && Fold(observations).unknownCost == 0
    ensures Fold(observations).requests >= 0
    ensures receipts != [] && observations[0].result.responseIds != [] ==> Fold(observations).requests > 0
  {
    if receipts != [] {
      var n := |receipts| - 1;
      TotalsOfReceipts(observations[..n], receipts[..n]);
      assert AccountsFor(observations[n].result.accounting, receipts[n], |observations[n].result.responseIds|);
    }
  }

  lemma FinishedTotals(c: Setting)
    requires ValidAuthorization(c.auth) && Execute(c).failure.None?
    ensures AddsUp(Execute(c).receipts, Fold(Execute(c).observations)) && Fold(Execute(c).observations).requests > 0
    ensures Fold(Execute(c).observations).unknownUsage == 0 && Fold(Execute(c).observations).unknownCost == 0
  {
    forall k | 0 <= k < |c.auth.pairKeys|
      ensures |Execute(c).receipts| == |Execute(c).observations| == |c.auth.pairKeys|
      ensures AccountsFor(Execute(c).observations[k].result.accounting, Execute(c).receipts[k],
                          |Execute(c).observations[k].result.responseIds|)
      ensures Execute(c).observations[k].result.responseIds != []
    {
      FinishedReceipt(c, k);
    }
    FinishedReceipt(c, 0);
    TotalsOfReceipts(Execute(c).observations, Execute(c).receipts);
  }

  /** Receipts that answer the schedule one by one are found by their keys in schedule order. */
  lemma ScheduledReceipts(receipts: seq<Receipt>, keys: seq<PairKey>)
    requires |receipts| == |keys| && forall k :: 0 <= k < |keys| ==> receipts[k].pairKey == keys[k]
    requires forall j, k :: 0 <= j < k < |keys| ==> keys[j] != keys[k]
    ensures CoversSchedule(receipts, keys) && InScheduleOrder(receipts, keys) == receipts
  {
    var byKey := IndexBy(ReceiptKey, receipts);
    assert DistinctBy(ReceiptKey, receipts) by {
      forall i, j | 0 <= i < j < |receipts| ensures ReceiptKey(receipts[i]) != ReceiptKey(receipts[j]) {
        assert keys[i] != keys[j];
      }
    }
    forall k ensures k in byKey <==> k in keys {
      IndexDomain(ReceiptKey, receipts, k);
      if i :| 0 <= i < |receipts| && ReceiptKey(receipts[i]) == k {
        assert keys[i] == k;
      }
      if k in keys {
        var i :| 0 <= i < |keys| && keys[i] == k;
        assert ReceiptKey(receipts[i]) == k;
      }
    }
    assert byKey.Keys == set k | k in keys;
    DistinctCount(keys);
    forall k | 0 <= k < |keys| ensures keys[k] in byKey && byKey[keys[k]] == receipts[k] {
      IndexContent(ReceiptKey, receipts, k);
    }
  }

  lemma {:induction false} DistinctCount(keys: seq<PairKey>)
    requires forall j, k :: 0 <= j < k < |keys| ==> keys[j] != keys[k]
    ensures |set k | k in keys| == |keys|
  {
    if keys != [] {
      var n := |keys| - 1;
      DistinctCount(keys[..n]);
      assert (set k | k in keys) == (set k | k in keys[..n]) + {keys[n]};
      assert keys[n] !in keys[..n];
    }
  }

  lemma FinishedSchedule(c: Setting)
    requires ValidAuthorization(c.auth) && Execute(c).failure.None?
    ensures |Execute(c).receipts| == |c.auth.pairKeys| > 0
    ensures CoversSchedule(Execute(c).receipts, c.auth.pairKeys)
    ensures InScheduleOrder(Execute(c).receipts, c.auth.pairKeys) == Execute(c).receipts
    ensures forall i :: 0 <= i < |Execute(c).receipts| ==>
      ReceiptInPlace(Execute(c).receipts[i], c.auth, Execute(c).receipts[0].evaluator)
    ensures Execute(c).receipts[0].protocol == c.auth.protocol
  {
    var receipts := Execute(c).receipts;
    FinishedReceipt(c, 0);
    forall k | 0 <= k < |receipts|
      ensures receipts[k].pairKey == c.auth.pairKeys[k] && ReceiptInPlace(receipts[k], c.auth, receipts[0].evaluator)
    {
      FinishedReceipt(c, k);
    }
    forall j, k | 0 <= j < k < |c.auth.pairKeys| ensures c.auth.pairKeys[j] != c.auth.pairKeys[k] {
      assert c.auth.pairKeys[j].replicate == j && c.auth.pairKeys[k].replicate == k;
    }
    ScheduledReceipts(receipts, c.auth.pairKeys);
  }

  /** An assessed run without failure publishes its proof exactly when its repairs are mixed and each
      request was one model call. */
  lemma PublishedExactly(c: Setting)
    requires ValidAuthorization(c.auth) && Execute(c).failure.None? && ReportOf(c, Execute(c)).Some?
    ensures ReportOf(c, Execute(c)).value.completed
    ensures PublicProof(ReportOf(c, Execute(c)).value, c.auth).Some? <==>
      Mixed(Execute(c).receipts) && SumBy(ModelCalls, Execute(c).receipts) == SumBy(Requests, Execute(c).receipts)
  {
    AssessedExactly(c);
    FinishedSchedule(c);
    FinishedTotals(c);
    CompleteIsBounded(Execute(c).receipts);
  }

  /** A failed run always returns, with an incomplete report. */
  lemma FailedRunReturns(c: Setting)
    requires ValidAuthorization(c.auth) && Execute(c).failure.Some?
    ensures Run(c).Some? && !Run(c).value.report.completed
  {
    ReportReconciles(c);
  }

  lemma UnfailingRunReturnsExactly(c: Setting)
    requires ValidAuthorization(c.auth) && Execute(c).failure.None?
    ensures Run(c).Some? <==> c.replicates == |c.auth.pairKeys| && Publishable(Execute(c).receipts)
    ensures Run(c).Some? ==> Run(c).value.report.completed
  {
    AssessedExactly(c);
    if AssessHeadroom(c, Execute(c).receipts, c.replicates).Some? {
      ReportReconciles(c);
      PublishedExactly(c);
    }
  }

  /**
   A run returns exactly when some call is answered badly, so that it fails, or the answers to all of
   the frozen replicates can be published. Nothing else decides it.
   */
  lemma ReturnsExactly(c: Setting)
    requires ValidAuthorization(c.auth)
    ensures Run(c).Some? <==>
      Finishes(c) ==> c.replicates == |c.auth.pairKeys| && Publishable(AnswerReceipts(c))
    ensures Run(c).Some? ==> (Run(c).value.report.completed <==> Finishes(c))
  {
    FinishesExactly(c);
    if Finishes(c) {
      UnfailingRunReturnsExactly(c);
    } else {
      FailedRunReturns(c);
    }
  }

  /** Every returned run reconciles with its evidence, and every completed one measured headroom. */
  lemma ReturnedRunReconciles(c: Setting)
    requires Run(c).Some?
    ensures var ending := Run(c).value;
      && ValidReport(ending.report) && Reconciles(ending.report, Execute(c).observations, c.auth)
      && (ending.report.completed <==> ending.proof.Some?)
      && (ending.report.completed ==> ending.report.headroom.value.status.HasHeadroom? && Mixed(ending.report.receipts))
  {
    if Run(c).value.report.completed {
      FinishesExactly(c);
      PublishedExactly(c);
    }
  }

  /** What a returned run leaves on disk replays to the run's own report. */
  lemma ReturnedRunReplays(c: Setting)
    requires Run(c).Some? && |c.auth.pairKeys| <= 1000000
    ensures WriteAll(CallName(c.tag), Execute(c).observations).Some?
    ensures Replay(c.auth, Evidence(c.auth, Run(c).value.report, WriteAll(CallName(c.tag), Execute(c).observations).value,
                                    Run(c).value.proof))
      == Ok(Run(c).value.report)
  {
    RunIsSound(c);
    CallNamesAscend(c, Execute(c).observations);
    AscendingNamesReadBack(CallName(c.tag), Execute(c).observations);
  }

  // A finished run that raises

  const NAME: Text := [97]

  function OneKey(): Authorization {
    Authorization(NAME, NAME, NAME, NAME, [NAME], [PairKey(NAME, NAME, 0, NAME)])
  }

  function OneReceipt(complete: bool, modelCalls: nat): Receipt {
    Receipt(OneKey().pairKeys[0], [NAME], NAME, [NAME], NAME, [NAME], true, false, 1,
            Usage(modelCalls, 0, 0, 0, 0), Cost(0.0, 0.0), false, true, 0, complete)
  }

  /** One planned call, answered with a sound receipt. */
  function OneCall(complete: bool, modelCalls: nat): Setting {
    var accounting := Accounting(true, true, 1, Some(modelCalls), Some(0), Some(0), Some(0), Some(0), Some(0.0), Some(0.0));
    Setting(OneKey(), 1, [NAME], (r: Receipt) => true,
            (k: nat, request: Request) =>
              Returned(CallResult(request, Succeeded, [NAME], accounting, Some(OneReceipt(complete, modelCalls)), [])),
            (k: PairKey) => [])
  }

  /** Its every call succeeds and its receipts form one covering panel, yet the run raises: one repair
      alone leaves no headroom. */
  lemma OneCallFinishesAndRaises(complete: bool, modelCalls: nat)
    ensures ValidAuthorization(OneCall(complete, modelCalls).auth) && Finishes(OneCall(complete, modelCalls))
    ensures Execute(OneCall(complete, modelCalls)).failure.None?
    ensures AssessHeadroom(OneCall(complete, modelCalls), Execute(OneCall(complete, modelCalls)).receipts, 1).Some?
    ensures Run(OneCall(complete, modelCalls)).None?
  {
    var c := OneCall(complete, modelCalls);
    assert GoodAnswer(c, 0) by {
      assert ValidResult(Answer(c, 0));
    }
    assert Finishes(c);
    FinishesExactly(c);
    AssessedExactly(c);
    ReturnsExactly(c);
    var receipts := AnswerReceipts(c);
    assert |receipts| == 1;
    assert !Mixed(receipts);
  }
}
