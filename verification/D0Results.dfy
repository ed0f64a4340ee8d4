/** What every baseline run keeps, and why its evidence always reconciles and replays. */
module D0Results {
  import opened Wrappers
  import opened Scalars
  import opened Collections
  import opened EvidenceFiles
  import opened D0Run

  /** Call `k` was the planned request, and its result is the judged answer of the executor. */
  predicate Recorded(c: Setting, observations: seq<Observation>, k: nat)
    requires k < |observations|
  {
    && k < |c.auth.pairKeys|
    && observations[k].request == RequestAt(c, k)
    && var answer := Supervised(RequestAt(c, k), c.executor(k, RequestAt(c, k)));
       && ValidResult(answer)
       && observations[k].result == Judged(c, RequestAt(c, k), SeenIds(observations[..k]), answer)
  }

  ghost predicate AsPlanned(c: Setting, observations: seq<Observation>) {
    && |observations| <= |c.auth.pairKeys|
    && forall k :: 0 <= k < |observations| ==> Recorded(c, observations, k)
  }

  /** Only the last call can have failed, and then the failure is that call's. */
  predicate FailsLast(log: Log) {
    && (forall k :: 0 <= k < |log.observations| ==> (log.observations[k].result.status.Succeeded?
                                                     <==> (log.failure.None? || k < |log.observations| - 1)))
    && (log.failure.Some? ==>
          && log.observations != []
          && log.failure.value.index == |log.observations| - 1
          && log.failure.value.code == log.observations[|log.observations| - 1].result.status
          && log.failure.value.request == log.observations[|log.observations| - 1].request)
  }

  ghost predicate Sound(c: Setting, log: Log) {
    && AsPlanned(c, log.observations) && FailsLast(log)
    && SuccessfulReceipts(log.observations) == Present(log.receipts)
    && !Repeats(ResponseIds(log.observations))
  }

  lemma NoRepeatsAppended(ids: seq<Text>, more: seq<Text>)
    requires !Repeats(ids) && !Repeats(more) && forall i :: 0 <= i < |more| ==> more[i] !in ids
    ensures !Repeats(ids + more)
  {
    var all := ids + more;
    forall i, j | 0 <= i < j < |all| ensures all[i] != all[j] {
      if i < |ids| <= j {
        assert all[i] in ids && all[j] == more[j - |ids|];
      }
    }
  }

  lemma PlannedGrows(c: Setting, observations: seq<Observation>, o: Observation)
    requires AsPlanned(c, observations) && |observations| < |c.auth.pairKeys|
    requires Recorded(c, observations + [o], |observations|)
    ensures AsPlanned(c, observations + [o])
  {
    var all := observations + [o];
    forall k | 0 <= k < |all| ensures Recorded(c, all, k) {
      if k < |observations| {
        assert all[..k] == observations[..k];
        assert Recorded(c, observations, k);
      }
    }
  }

  lemma ReceiptsGrow(observations: seq<Observation>, o: Observation)
    ensures SuccessfulReceipts(observations + [o])
      == SuccessfulReceipts(observations) + if o.result.status.Succeeded? then [o.result.receipt] else []
    ensures ResponseIds(observations + [o]) == ResponseIds(observations) + o.result.responseIds
  {
    assert (observations + [o])[..|observations|] == observations;
  }

  lemma IdsStayUnique(c: Setting, observations: seq<Observation>, r: CallResult, request: Request)
    requires ValidResult(r) && !Repeats(ResponseIds(observations))
    ensures !Repeats(ResponseIds(observations) + Judged(c, request, SeenIds(observations), r).responseIds)
  {
    var more := Judged(c, request, SeenIds(observations), r).responseIds;
    forall i | 0 <= i < |more| ensures more[i] !in ResponseIds(observations) {
      assert more[i] !in SeenIds(observations);
    }
    NoRepeatsAppended(ResponseIds(observations), more);
  }

  /** The observation that the next step records. */
  function NextObservation(c: Setting, log: Log): Observation
    requires |log.observations| < |c.auth.pairKeys|
  {
    var request := RequestAt(c, |log.observations|);
    SupervisedIsValid(request, c.executor(|log.observations|, request));
    Observation(request, Judged(c, request, SeenIds(log.observations),
                                Supervised(request, c.executor(|log.observations|, request))))
  }

  /** Every step of every run keeps the log sound. */
  lemma StepIsSound(c: Setting, log: Log)
    requires Sound(c, log) && log.failure.None? && |log.observations| < |c.auth.pairKeys|
    ensures Sound(c, Step(c, log))
  {
    var o := NextObservation(c, log);
    var request := RequestAt(c, |log.observations|);
    SupervisedIsValid(request, c.executor(|log.observations|, request));
    assert (log.observations + [o])[..|log.observations|] == log.observations;
    PlannedGrows(c, log.observations, o);
    ReceiptsGrow(log.observations, o);
    IdsStayUnique(c, log.observations, Supervised(request, c.executor(|log.observations|, request)), request);
    StepFailsLast(log, o);
    if o.result.status.Succeeded? {
      assert Present(log.receipts + [o.result.receipt.value]) == Present(log.receipts) + [o.result.receipt];
    }
  }

  lemma StepFailsLast(log: Log, o: Observation)
    requires FailsLast(log) && log.failure.None?
    ensures var failure := Failure(o.result.status, |log.observations|, o.request);
      FailsLast(Log(log.observations + [o], log.receipts, if o.result.status.Succeeded? then None else Some(failure)))
  {
  }

  lemma {:induction false} RunFromIsSound(c: Setting, log: Log)
    requires Sound(c, log)
    ensures Sound(c, RunFrom(c, log))
    ensures RunFrom(c, log).failure.None? ==> |RunFrom(c, log).observations| == |c.auth.pairKeys|
    decreases if log.failure.Some? then 0 else 1 + |c.auth.pairKeys| - |log.observations|
  {
    if log.failure.None? && |log.observations| < |c.auth.pairKeys| {
      StepIsSound(c, log);
      RunFromIsSound(c, Step(c, log));
    }
  }

  /** Every run, against every executor, is sound: planned prefix, unique responses, failure only last. */
  lemma RunIsSound(c: Setting)
    ensures Sound(c, Execute(c))
    ensures Execute(c).failure.None? ==> |Execute(c).observations| == |c.auth.pairKeys|
  {
    RunFromIsSound(c, Log([], [], None));
  }

  lemma {:induction false} ReceiptCount(observations: seq<Observation>)
    ensures |SuccessfulReceipts(observations)| <= |observations|
    ensures (forall k :: 0 <= k < |observations| ==> observations[k].result.status.Succeeded?) ==>
      |SuccessfulReceipts(observations)| == |observations|
      && forall k :: 0 <= k < |observations| ==> SuccessfulReceipts(observations)[k] == observations[k].result.receipt
  {
    if observations != [] {
      ReceiptCount(observations[..|observations| - 1]);
    }
  }

  lemma RequestsAsPlanned(c: Setting)
    ensures |Execute(c).observations| <= |c.auth.pairKeys|
    ensures forall k :: 0 <= k < |Execute(c).observations| ==> Execute(c).observations[k].request == RequestAt(c, k)
  {
    RunIsSound(c);
    forall k | 0 <= k < |Execute(c).observations| ensures Execute(c).observations[k].request == RequestAt(c, k) {
      assert Recorded(c, Execute(c).observations, k);
    }
  }

  /** The receipts are those of the successful calls, all of them when none failed. */
  lemma ReceiptsTellFailure(c: Setting)
    ensures SuccessfulReceipts(Execute(c).observations) == Present(Execute(c).receipts)
    ensures !Repeats(ResponseIds(Execute(c).observations))
    ensures Execute(c).failure.None? ==> |Execute(c).receipts| == |c.auth.pairKeys|
  {
    RunIsSound(c);
    ReceiptCount(Execute(c).observations);
    assert |Present(Execute(c).receipts)| == |Execute(c).receipts|;
  }

  lemma ReportIsValid(c: Setting)
    requires ReportOf(c, Execute(c)).Some?
    ensures ValidReport(ReportOf(c, Execute(c)).value)
  {
    ReceiptsTellFailure(c);
  }

  /** Any report a run draws up is valid and reconciles with the run's evidence. */
  lemma ReportReconciles(c: Setting)
    requires ReportOf(c, Execute(c)).Some?
    ensures ValidReport(ReportOf(c, Execute(c)).value)
    ensures Reconciles(ReportOf(c, Execute(c)).value, Execute(c).observations, c.auth)
  {
    ReportIsValid(c);
    RequestsAsPlanned(c);
    ReceiptsTellFailure(c);
    assert |Present(Execute(c).receipts)| == |Execute(c).receipts|;
  }

  lemma CallNamesAscend(c: Setting, observations: seq<Observation>)
    requires AsPlanned(c, observations) && |observations| <= 1000000
    ensures NamesAscend(CallName(c.tag), observations)
  {
    assert Pow10(6) == 1000000 by {
      PowersOfTen();
      assert Pow10(6) == 10 * Pow10(5) == 100 * Pow10(4);
    }
    forall i, j | 0 <= i < j < |observations|
      ensures Before(CallName(c.tag)(observations[i]), CallName(c.tag)(observations[j]))
    {
      assert Recorded(c, observations, i) && Recorded(c, observations, j);
      NumberedNamesAscend(6, i, j, c.tag(observations[i].request.pairKey), c.tag(observations[j].request.pairKey));
    }
  }

  /** No call is ever refused its file. */
  lemma CallsAreWritten(c: Setting, observations: seq<Observation>)
    requires AsPlanned(c, observations)
    ensures WriteAll(CallName(c.tag), observations).Some?
  {
    var name := CallName(c.tag);
    forall i, j | 0 <= i < j < |observations| ensures name(observations[i]) != name(observations[j]) {
      assert Recorded(c, observations, i) && Recorded(c, observations, j);
      if name(observations[i]) == name(observations[j]) {
        NumberedNamesDiffer(6, i, j, c.tag(observations[i].request.pairKey), c.tag(observations[j].request.pairKey));
      }
    }
    WrittenExactly(name, observations);
  }

  // Completed runs

  /** In a run without failure receipt `k` answers request `k`: its own pair key, identity and protocol. */
  lemma FinishedReceipt(c: Setting, k: nat)
    requires Execute(c).failure.None? && k < |c.auth.pairKeys|
    ensures |Execute(c).receipts| == |Execute(c).observations| == |c.auth.pairKeys|
    ensures Execute(c).observations[k].result.receipt == Some(Execute(c).receipts[k])
    ensures Execute(c).receipts[k].pairKey == c.auth.pairKeys[k]
    ensures Execute(c).receipts[k].identity == c.auth.identity && Execute(c).receipts[k].protocol == c.auth.protocol
    ensures Authoritative(c, Execute(c).receipts[k])
    ensures AccountsFor(Execute(c).observations[k].result.accounting, Execute(c).receipts[k],
                        |Execute(c).observations[k].result.responseIds|)
    ensures Execute(c).observations[k].result.responseIds != []
  {
    RunIsSound(c);
    var log := Execute(c);
    ReceiptCount(log.observations);
    assert Recorded(c, log.observations, k);
    assert log.observations[k].result.status.Succeeded?;
    assert Present(log.receipts)[k] == log.observations[k].result.receipt;
  }

  /** A run without failure covers each sampling replicate exactly once. */
  lemma FinishedRunCoversReplicates(c: Setting)
    requires ValidAuthorization(c.auth) && Execute(c).failure.None?
    ensures CoversReplicates(Execute(c).receipts, |c.auth.pairKeys|)
  {
    var receipts, n := Execute(c).receipts, |c.auth.pairKeys|;
    RunIsSound(c);
    ReceiptCount(Execute(c).observations);
    assert |receipts| == |Present(receipts)| == n;
    forall i | 0 <= i < n ensures receipts[i].pairKey.replicate == i {
      FinishedReceipt(c, i);
    }
    forall k | 0 <= k < n ensures HasReplicate(receipts, k) {
      assert receipts[k].pairKey.replicate == k;
    }
  }

  lemma {:induction false} CompleteIsBounded(receipts: seq<Receipt>)
    ensures Complete(receipts) <= |receipts|
    ensures Complete(receipts) > 0 <==> exists i :: 0 <= i < |receipts| && receipts[i].complete
    ensures Complete(receipts) < |receipts| <==> exists i :: 0 <= i < |receipts| && !receipts[i].complete
  {
    if receipts != [] {
      var n := |receipts| - 1;
      CompleteIsBounded(receipts[..n]);
      assert forall i :: 0 <= i < n ==> receipts[..n][i] == receipts[i];
    }
  }

  /** There is headroom exactly when some repair was complete and some was not. */
  lemma HeadroomExactly(c: Setting, receipts: seq<Receipt>, count: nat)
    requires AssessHeadroom(c, receipts, count).Some?
    ensures var a := AssessHeadroom(c, receipts, count).value;
      && a.receipts == count && a.complete + a.failures == count
      && (a.status.HasHeadroom? <==>
            (exists i :: 0 <= i < |receipts| && receipts[i].complete) && exists i :: 0 <= i < |receipts| && !receipts[i].complete)
      && (a.status.UniformFailure? <==> forall i :: 0 <= i < |receipts| ==> !receipts[i].complete)
  {
    CompleteIsBounded(receipts);
  }

  // The loop

  /** The run as it is carried out: lists of observations and receipts, a set of response ids, files. */
  method ExecuteSchedule(c: Setting) returns (log: Log, files: seq<File<Observation>>)
    ensures log == Execute(c) && WriteAll(CallName(c.tag), log.observations) == Some(files)
  {
    var observations: seq<Observation>, receipts: seq<Receipt>, seen: set<Text> := [], [], {};
    var failure: Option<Failure> := None;
    files := [];
    var k := 0;
    while k < |c.auth.pairKeys| && failure.None?
      invariant 0 <= k <= |c.auth.pairKeys| && |observations| == k
      invariant RunFrom(c, Log(observations, receipts, failure)) == Execute(c)
      invariant failure.None? ==> seen == SeenIds(observations)
      invariant Sound(c, Log(observations, receipts, failure))
      invariant WriteAll(CallName(c.tag), observations) == Some(files)
    {
      var request := RequestAt(c, k);
      var outcome := c.executor(k, request);
      SupervisedIsValid(request, outcome);
      var result := Judged(c, request, seen, Supervised(request, outcome));
      var o := Observation(request, result);
      ReceiptsGrow(observations, o);
      assert (observations + [o])[..k] == observations;
      StepIsSound(c, Log(observations, receipts, failure));
      CallsAreWritten(c, observations + [o]);
      files := Write(files, CallName(c.tag)(o), o).value;
      observations := observations + [o];
      if result.status.Succeeded? {
        seen := seen + (set id | id in result.responseIds);
        receipts := receipts + [result.receipt.value];
      } else {
        failure := Some(Failure(result.status, k, request));
      }
      k := k + 1;
    }
    log := Log(observations, receipts, failure);
  }
}
