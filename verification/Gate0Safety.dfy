/**
 What every forced-exchange run keeps, whatever its executor does: the calls are a prefix of the
 schedule, each executed call is exactly the planned one, and only the last call can be at fault.
 */
module Gate0Safety {
  import opened Wrappers
  import opened Scalars
  import opened Sorting
  import opened Collections
  import opened Gate0Plan
  import opened Gate0Run
  import Analysis = Gate0Analysis

  /** The plan of a scheduled call. */
  function PlanOf(m: Manifest, id: CallId): CallPlan
    requires id.sample in ArmsBySample(m)
  {
    CallOf(ArmFor(m, id), id.actor)
  }

  /** Call `k` was the scheduled one, ran exactly as planned, and its result is what the executor gave. */
  predicate Recorded(c: Setting, o: CallObservation, k: nat) {
    && k < |c.manifest.schedule| && o.scheduledCall == c.manifest.schedule[k]
    && o.scheduledCall.sample in ArmsBySample(c.manifest)
    && var result := Supervised(c.deadline, o.executed, c.executor(k, o.executed));
       && o == CallObservation(
                 k, c.manifest.digest, c.provenance, o.scheduledCall, RequestDigest(PlanOf(c.manifest, o.scheduledCall)),
                 PlanOf(c.manifest, o.scheduledCall),
                 if o.scheduledCall.actor.ProducerA? then None else Some(Call(o.scheduledCall.sample, ProducerA)), o.result)
       && result == Some(o.result) && !CrossedResult(o.result, o.executed, c.manifest)
  }

  /** A responder ran on what its producer had emitted: substituting that text left its request unchanged. */
  predicate Fed(c: Setting, calls: seq<CallObservation>, id: CallId)
    requires Ready(c) && id.sample in ArmsBySample(c.manifest)
  {
    id.actor.ResponderB? ==>
      && ArtifactOf(calls, id.sample).Some?
      && (ArmForSample(c.manifest, id);
          EffectiveCall(PlanOf(c.manifest, id), ArtifactOf(calls, id.sample).value) == PlanOf(c.manifest, id))
  }

  predicate Unobjected(c: Setting, calls: seq<CallObservation>, k: nat)
    requires k < |calls|
  {
    Objection(c.deadline, calls[..k], calls[k]).None?
  }

  /** The arm observations that a list of unobjected calls gives rise to: one per responder. */
  function ArmsOf(c: Setting, calls: seq<CallObservation>): seq<ArmObservation>
    requires Ready(c)
  {
    if calls == [] then []
    else
      var n := |calls| - 1;
      ArmsOf(c, calls[..n]) + ArmAfter(c, calls[..n], calls[n])
  }

  function ArmAfter(c: Setting, calls: seq<CallObservation>, o: CallObservation): seq<ArmObservation>
    requires Ready(c)
  {
    var id := o.scheduledCall;
    if id.actor.ResponderB? && id.sample in ArmsBySample(c.manifest) && Call(id.sample, ProducerA) in Made(calls) then
      ArmForSample(c.manifest, id);
      [ArmOutcome(c, ArmFor(c.manifest, id), Made(calls)[Call(id.sample, ProducerA)], o)]
    else []
  }

  /** How many calls came through without objection. */
  function Passed(log: Log): nat {
    if log.failure.Some? then log.failure.value.index else |log.calls|
  }

  /** The failure names the call it stopped at; if that call was recorded, it is the call's first objection. */
  predicate Explained(c: Setting, log: Log) {
    log.failure.Some? ==>
      && |log.calls| <= Passed(log) + 1 <= |c.manifest.schedule|
      && Passed(log) <= |log.calls|
      && log.failure.value.call == Some(c.manifest.schedule[Passed(log)])
      && (if Passed(log) < |log.calls|
          then Objection(c.deadline, log.calls[..Passed(log)], log.calls[Passed(log)]) == Some(log.failure.value.code)
          else log.failure.value.code in {CrossedIdentity, ArtifactMismatch, ExecutorFailed})
  }

  ghost predicate AsPlanned(c: Setting, calls: seq<CallObservation>)
    requires Ready(c)
  {
    && |calls| <= |c.manifest.schedule|
    && (forall k :: 0 <= k < |calls| ==> Recorded(c, calls[k], k))
    && (forall k :: 0 <= k < |calls| ==> Fed(c, calls[..k], calls[k].scheduledCall))
  }

  ghost predicate ClearUpTo(c: Setting, calls: seq<CallObservation>, n: nat)
    requires n <= |calls|
  {
    forall k :: 0 <= k < n ==> Unobjected(c, calls, k)
  }

  ghost predicate Sound(c: Setting, log: Log)
    requires Ready(c)
  {
    && AsPlanned(c, log.calls)
    && Explained(c, log)
    && ClearUpTo(c, log.calls, Passed(log))
    && log.arms == ArmsOf(c, log.calls[..Passed(log)])
  }

  lemma ValidManifestIsReady(c: Setting)
    requires ValidManifest(c.manifest) && Delivers(c.manifest)
    ensures Ready(c)
  {
    forall sample | sample in ArmsBySample(c.manifest) ensures sample.item in ItemsById(c.manifest) {
      IndexDomain(SampleOf, c.manifest.arms, sample);
      var k :| 0 <= k < |c.manifest.arms| && SampleOf(c.manifest.arms[k]) == sample;
      assert Planned(c.manifest, c.manifest.arms[k].sample);
      IndexDomain(ItemId, c.manifest.items, sample.item);
      var i :| 0 <= i < |c.manifest.items| && c.manifest.items[i].id == sample.item;
      assert ItemId(c.manifest.items[i]) == sample.item;
    }
  }

  // One step keeps the run sound

  /** A responder whose request kept its identity runs exactly its planned request. */
  lemma SameIdentityMeansPlanned(scheduled: CallPlan, text: Text)
    requires text != [] && (CarriesArtifact(scheduled.callId.sample.arm) ==> scheduled.payload.artifact.Some?)
    requires SameIdentityAndPrice(EffectiveCall(scheduled, text), scheduled)
    ensures EffectiveCall(scheduled, text) == scheduled
  {
  }

  lemma UnobjectedIsPriced(deadline: nat, calls: seq<CallObservation>, o: CallObservation)
    requires Objection(deadline, calls, o).None?
    ensures PricedOf(o.result) == PricedUnits(o.executed.payload)
    ensures o.result.usage.Some? && o.result.usage.value.tokens.Some? && o.result.usage.value.cost.Some?
    ensures o.scheduledCall.actor.ProducerA? ==> EmittedText(o.result).Some?
    ensures o.result.responseId.Some? ==> o.result.responseId.value !in ResponseIds(calls)
  {
  }

  lemma MadeAt(calls: seq<CallObservation>, id: CallId) returns (p: nat)
    requires id in Made(calls)
    ensures p < |calls| && calls[p] == Made(calls)[id] && calls[p].scheduledCall == id
  {
    IndexDomain(CallKey, calls, id);
    p :| p < |calls| && calls[p] == Made(calls)[id];
  }

  /** In a sound log, the producer found for a sample was priced as planned. */
  lemma ProducerIsPriced(c: Setting, log: Log, sample: SampleId)
    requires Ready(c) && Sound(c, log) && log.failure.None? && Call(sample, ProducerA) in Made(log.calls)
    requires sample in ArmsBySample(c.manifest)
    ensures PricedOf(Made(log.calls)[Call(sample, ProducerA)].result)
      == PricedUnits(ArmsBySample(c.manifest)[sample].producer)
  {
    var p := MadeAt(log.calls, Call(sample, ProducerA));
    assert Recorded(c, log.calls[p], p) && Unobjected(c, log.calls, p);
    UnobjectedIsPriced(c.deadline, log.calls[..p], log.calls[p]);
  }

  lemma ArmsGrow(c: Setting, calls: seq<CallObservation>, o: CallObservation)
    requires Ready(c)
    ensures ArmsOf(c, calls + [o]) == ArmsOf(c, calls) + ArmAfter(c, calls, o)
  {
    assert (calls + [o])[..|calls|] == calls;
  }

  /** Adding a recorded call keeps every earlier one. */
  lemma RecordedGrow(c: Setting, log: Log, o: CallObservation)
    requires Ready(c) && Sound(c, log) && log.failure.None? && Recorded(c, o, |log.calls|)
    requires Fed(c, log.calls, o.scheduledCall)
    ensures AsPlanned(c, log.calls + [o]) && ClearUpTo(c, log.calls + [o], |log.calls|)
    ensures (log.calls + [o])[..|log.calls|] == log.calls
  {
    var calls := log.calls + [o];
    forall k | 0 <= k < |calls| ensures Fed(c, calls[..k], calls[k].scheduledCall) {
      assert calls[..k] == log.calls[..k];
    }
    forall k | 0 <= k < |log.calls| ensures Unobjected(c, calls, k) {
      assert calls[..k] == log.calls[..k];
      assert Unobjected(c, log.calls, k);
    }
  }

  /** The arm total can never disagree: both of its calls were already checked. */
  lemma ArmTotalsReconcile(c: Setting, log: Log, o: CallObservation)
    requires Ready(c) && Sound(c, log) && log.failure.None? && Recorded(c, o, |log.calls|)
    requires Objection(c.deadline, log.calls, o).None? && o.scheduledCall.actor.ResponderB?
    requires Call(o.scheduledCall.sample, ProducerA) in Made(log.calls)
    ensures PricedOf(Made(log.calls)[Call(o.scheduledCall.sample, ProducerA)].result) + PricedOf(o.result)
      == ArmUnits(ArmFor(c.manifest, o.scheduledCall))
  {
    ProducerIsPriced(c, log, o.scheduledCall.sample);
    UnobjectedIsPriced(c.deadline, log.calls, o);
  }

  lemma ObjectedIsSound(c: Setting, log: Log, o: CallObservation, code: Code)
    requires Ready(c) && Sound(c, log) && log.failure.None? && Recorded(c, o, |log.calls|)
    requires Fed(c, log.calls, o.scheduledCall) && Objection(c.deadline, log.calls, o) == Some(code)
    ensures Sound(c, Log(log.calls + [o], log.arms, Some(Failure(code, Some(o.scheduledCall), |log.calls|))))
  {
    RecordedGrow(c, log, o);
    assert log.calls[..|log.calls|] == log.calls;
  }

  lemma UnobjectedIsSound(c: Setting, log: Log, o: CallObservation)
    requires Ready(c) && Sound(c, log) && log.failure.None? && Recorded(c, o, |log.calls|)
    requires Fed(c, log.calls, o.scheduledCall) && Objection(c.deadline, log.calls, o).None?
    ensures Sound(c, Log(log.calls + [o], log.arms + ArmAfter(c, log.calls, o), None))
  {
    var calls := log.calls + [o];
    RecordedGrow(c, log, o);
    ArmsGrow(c, log.calls, o);
    assert log.calls[..|log.calls|] == log.calls && calls[..|calls|] == calls;
    assert Unobjected(c, calls, |log.calls|);
  }

  lemma RecordIsSound(c: Setting, log: Log, o: CallObservation)
    requires Ready(c) && Sound(c, log) && log.failure.None? && Recorded(c, o, |log.calls|)
    requires Fed(c, log.calls, o.scheduledCall)
    ensures ArmFor(c.manifest, o.scheduledCall).sample in ArmsBySample(c.manifest)
    ensures Sound(c, Record(c, log, ArmFor(c.manifest, o.scheduledCall), o))
    ensures Record(c, log, ArmFor(c.manifest, o.scheduledCall), o).failure.None?
      <==> Objection(c.deadline, log.calls, o).None?
  {
    ArmForSample(c.manifest, o.scheduledCall);
    var objection := Objection(c.deadline, log.calls, o);
    if objection.Some? {
      ObjectedIsSound(c, log, o, objection.value);
    } else {
      UnobjectedIsSound(c, log, o);
      if o.scheduledCall.actor.ResponderB? {
        ArmTotalsReconcile(c, log, o);
      } else {
        assert log.arms + ArmAfter(c, log.calls, o) == log.arms;
      }
    }
  }

  lemma AttemptIsSound(c: Setting, log: Log, id: CallId)
    requires Ready(c) && Sound(c, log) && log.failure.None? && |log.calls| < |c.manifest.schedule|
    requires id == c.manifest.schedule[|log.calls|] && id.sample in ArmsBySample(c.manifest)
    requires Fed(c, log.calls, id)
    ensures ArmFor(c.manifest, id).sample in ArmsBySample(c.manifest)
    ensures var paired := if id.actor.ProducerA? then None else Some(Call(id.sample, ProducerA));
      Sound(c, Attempt(c, log, ArmFor(c.manifest, id), PlanOf(c.manifest, id), paired, PlanOf(c.manifest, id)))
  {
    ArmForSample(c.manifest, id);
    var plan := PlanOf(c.manifest, id);
    var paired := if id.actor.ProducerA? then None else Some(Call(id.sample, ProducerA));
    var result := Supervised(c.deadline, plan, c.executor(|log.calls|, plan));
    if result.Some? && !CrossedResult(result.value, plan, c.manifest) {
      RecordIsSound(c, log, CallObservation(|log.calls|, c.manifest.digest, c.provenance, id, RequestDigest(plan),
                                            plan, paired, result.value));
    }
  }

  /** Every step of every run keeps the log sound. */
  lemma StepIsSound(c: Setting, log: Log)
    requires Ready(c) && Sound(c, log) && log.failure.None? && |log.calls| < |c.manifest.schedule|
    ensures Sound(c, Step(c, log))
  {
    var id := c.manifest.schedule[|log.calls|];
    if id.sample in ArmsBySample(c.manifest) {
      ArmForSample(c.manifest, id);
      if id.actor.ProducerA? {
        AttemptIsSound(c, log, id);
      } else {
        var text := ArtifactOf(log.calls, id.sample);
        if text.Some? && SameIdentityAndPrice(EffectiveCall(PlanOf(c.manifest, id), text.value), PlanOf(c.manifest, id)) {
          SameIdentityMeansPlanned(PlanOf(c.manifest, id), text.value);
          AttemptIsSound(c, log, id);
        }
      }
    }
  }

  lemma {:induction false} RunFromIsSound(c: Setting, log: Log)
    requires Ready(c) && Sound(c, log)
    ensures Sound(c, RunFrom(c, log))
    ensures RunFrom(c, log).failure.None? ==> |RunFrom(c, log).calls| == |c.manifest.schedule|
    decreases if log.failure.Some? then 0 else 1 + |c.manifest.schedule| - |log.calls|
  {
    if log.failure.None? && |log.calls| < |c.manifest.schedule| {
      StepMakesProgress(c, log);
      StepIsSound(c, log);
      RunFromIsSound(c, Step(c, log));
    }
  }

  /** Every run, against every executor, ends in a sound log that failed or covered the schedule. */
  lemma RunIsSound(c: Setting)
    requires Ready(c)
    ensures Sound(c, Execute(c))
    ensures Execute(c).failure.None? ==> |Execute(c).calls| == |c.manifest.schedule|
  {
    RunFromIsSound(c, Log([], [], None));
  }
}
