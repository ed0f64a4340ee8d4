/** A cooperative executor always gets through: the failure exits are for executors that fail. */
module Gate0Liveness {
  import opened Wrappers
  import opened Scalars
  import opened Collections
  import opened Gate0Plan
  import opened Gate0Run
  import opened Gate0Safety
  import opened Gate0Results
  import opened Gate0Replay

  /** The executor answers call `k`, run as planned, in time, with known usage at the planned price. */
  ghost predicate AnswersWell(c: Setting, k: nat)
    requires Ready(c) && k < |c.manifest.schedule| && c.manifest.schedule[k].sample in ArmsBySample(c.manifest)
  {
    var id := c.manifest.schedule[k];
    var plan := PlanOf(c.manifest, id);
    && c.executor(k, plan).Returned?
    && var r := c.executor(k, plan).result;
       && ValidResult(r) && r.latency <= c.deadline && !CrossedResult(r, plan, c.manifest)
       && (r.status.Valid? || r.status.InvalidOutput?)
       && r.usage.Some? && r.usage.value.cost.Some?
       && r.usage.value.tokens.Some? && r.usage.value.tokens.value.priced == PricedUnits(plan.payload)
       && (id.actor.ProducerA? ==> EmittedText(r).Some? && KeepsResponder(c, id.sample, EmittedText(r).value))
  }

  /** Handing the text to the sample's responder leaves its planned request as it is. */
  ghost predicate KeepsResponder(c: Setting, sample: SampleId, text: Text)
    requires Ready(c) && sample in ArmsBySample(c.manifest) && text != []
  {
    var id := Call(sample, ResponderB);
    ArmForSample(c.manifest, id);
    EffectiveCall(PlanOf(c.manifest, id), text) == PlanOf(c.manifest, id)
  }

  ghost predicate Cooperative(c: Setting)
    requires Ready(c)
  {
    && (forall k :: 0 <= k < |c.manifest.schedule| ==>
         c.manifest.schedule[k].sample in ArmsBySample(c.manifest) && AnswersWell(c, k))
    && (forall j, k :: 0 <= j < k < |c.manifest.schedule| ==> AnswerTo(c, j).responseId != AnswerTo(c, k).responseId)
  }

  ghost function AnswerTo(c: Setting, k: nat): CallResult
    requires Ready(c) && k < |c.manifest.schedule| && c.manifest.schedule[k].sample in ArmsBySample(c.manifest)
    requires AnswersWell(c, k)
  {
    c.executor(k, PlanOf(c.manifest, c.manifest.schedule[k])).result
  }

  ghost predicate ProducersFirst(m: Manifest) {
    forall k :: 0 <= k < |m.schedule| && m.schedule[k].actor.ResponderB? ==>
      Call(m.schedule[k].sample, ProducerA) in m.schedule[..k]
  }

  lemma {:induction false} ResponseIdsMember(calls: seq<CallObservation>, x: Text) returns (j: nat)
    requires x in ResponseIds(calls)
    ensures j < |calls| && calls[j].result.responseId == Some(x)
  {
    var n := |calls| - 1;
    if x in ResponseIds(calls[..n]) {
      j := ResponseIdsMember(calls[..n], x);
    } else {
      j := n;
    }
  }

  lemma AnswerIsSupervised(c: Setting, k: nat)
    requires Ready(c) && k < |c.manifest.schedule| && c.manifest.schedule[k].sample in ArmsBySample(c.manifest)
    requires AnswersWell(c, k)
    ensures var plan := PlanOf(c.manifest, c.manifest.schedule[k]);
      Supervised(c.deadline, plan, c.executor(k, plan)) == Some(AnswerTo(c, k))
  {
  }

  lemma RecordedAnswer(c: Setting, o: CallObservation, k: nat)
    requires Ready(c) && Recorded(c, o, k) && AnswersWell(c, k)
    ensures o.result == AnswerTo(c, k)
  {
    AnswerIsSupervised(c, k);
  }

  lemma AnswerIsUnobjected(c: Setting, calls: seq<CallObservation>, o: CallObservation, k: nat)
    requires Ready(c) && k < |c.manifest.schedule| && c.manifest.schedule[k].sample in ArmsBySample(c.manifest)
    requires AnswersWell(c, k) && o.result == AnswerTo(c, k)
    requires o.scheduledCall == c.manifest.schedule[k] && o.executed == PlanOf(c.manifest, o.scheduledCall)
    requires o.result.responseId.Some? ==> o.result.responseId.value !in ResponseIds(calls)
    ensures Objection(c.deadline, calls, o).None?
  {
  }

  lemma AnswersDiffer(c: Setting, j: nat, k: nat)
    requires Ready(c) && Cooperative(c) && j < k < |c.manifest.schedule|
    ensures AnswerTo(c, j).responseId != AnswerTo(c, k).responseId
  {
  }

  lemma NoIdRepeats(c: Setting, log: Log)
    requires Ready(c) && Cooperative(c) && AsPlanned(c, log.calls) && |log.calls| < |c.manifest.schedule|
    ensures AnswerTo(c, |log.calls|).responseId.Some? ==>
      AnswerTo(c, |log.calls|).responseId.value !in ResponseIds(log.calls)
  {
    var id := AnswerTo(c, |log.calls|).responseId;
    if id.Some? && id.value in ResponseIds(log.calls) {
      var j := ResponseIdsMember(log.calls, id.value);
      assert Recorded(c, log.calls[j], j);
      RecordedAnswer(c, log.calls[j], j);
      AnswersDiffer(c, j, |log.calls|);
    }
  }

  /** The producer recorded for a sample emitted a text that keeps the responder as planned. */
  lemma ProducerKeepsResponder(c: Setting, log: Log, sample: SampleId)
    requires Ready(c) && Cooperative(c) && AsPlanned(c, log.calls) && sample in ArmsBySample(c.manifest)
    requires Call(sample, ProducerA) in Made(log.calls)
    ensures ArtifactOf(log.calls, sample).Some? && KeepsResponder(c, sample, ArtifactOf(log.calls, sample).value)
  {
    var q := MadeAt(log.calls, Call(sample, ProducerA));
    assert Recorded(c, log.calls[q], q);
    assert AnswersWell(c, q);
    RecordedAnswer(c, log.calls[q], q);
  }

  lemma ResponderIsFed(c: Setting, log: Log)
    requires Ready(c) && Cooperative(c) && ProducersFirst(c.manifest) && AsPlanned(c, log.calls)
    requires |log.calls| < |c.manifest.schedule| && c.manifest.schedule[|log.calls|].actor.ResponderB?
    ensures Fed(c, log.calls, c.manifest.schedule[|log.calls|])
  {
    var k := |log.calls|;
    var id := c.manifest.schedule[k];
    var producer := Call(id.sample, ProducerA);
    assert producer in c.manifest.schedule[..k];
    var p :| 0 <= p < k && c.manifest.schedule[..k][p] == producer;
    assert Recorded(c, log.calls[p], p);
    assert CallKey(log.calls[p]) == producer;
    IndexDomain(CallKey, log.calls, producer);
    ProducerKeepsResponder(c, log, id.sample);
    assert id == Call(id.sample, ResponderB);
  }

  lemma CooperativeStep(c: Setting, log: Log)
    requires Ready(c) && Cooperative(c) && ProducersFirst(c.manifest) && Sound(c, log) && log.failure.None?
    requires |log.calls| < |c.manifest.schedule|
    ensures Step(c, log).failure.None?
  {
    var k := |log.calls|;
    var id := c.manifest.schedule[k];
    assert AnswersWell(c, k);
    NoIdRepeats(c, log);
    if id.actor.ResponderB? {
      ResponderIsFed(c, log);
    }
    FedStepAttempts(c, log, id);
    CooperativeAttempt(c, log, id);
  }

  /** With its producer's planned artifact at hand, a step attempts the planned call. */
  lemma FedStepAttempts(c: Setting, log: Log, id: CallId)
    requires Ready(c) && |log.calls| < |c.manifest.schedule| && id == c.manifest.schedule[|log.calls|]
    requires id.sample in ArmsBySample(c.manifest) && Fed(c, log.calls, id)
    ensures ArmFor(c.manifest, id).sample in ArmsBySample(c.manifest)
    ensures var paired := if id.actor.ProducerA? then None else Some(Call(id.sample, ProducerA));
      Step(c, log) == Attempt(c, log, ArmFor(c.manifest, id), PlanOf(c.manifest, id), paired, PlanOf(c.manifest, id))
  {
    ArmForSample(c.manifest, id);
  }

  lemma CooperativeAttempt(c: Setting, log: Log, id: CallId)
    requires Ready(c) && Sound(c, log) && log.failure.None? && |log.calls| < |c.manifest.schedule|
    requires id == c.manifest.schedule[|log.calls|] && id.sample in ArmsBySample(c.manifest)
    requires AnswersWell(c, |log.calls|) && Fed(c, log.calls, id)
    requires AnswerTo(c, |log.calls|).responseId.Some? ==>
      AnswerTo(c, |log.calls|).responseId.value !in ResponseIds(log.calls)
    ensures ArmFor(c.manifest, id).sample in ArmsBySample(c.manifest)
    ensures var paired := if id.actor.ProducerA? then None else Some(Call(id.sample, ProducerA));
      Attempt(c, log, ArmFor(c.manifest, id), PlanOf(c.manifest, id), paired, PlanOf(c.manifest, id)).failure.None?
  {
    ArmForSample(c.manifest, id);
    var plan := PlanOf(c.manifest, id);
    var paired := if id.actor.ProducerA? then None else Some(Call(id.sample, ProducerA));
    var o := CallObservation(|log.calls|, c.manifest.digest, c.provenance, id, RequestDigest(plan), plan, paired,
                             AnswerTo(c, |log.calls|));
    AnswerIsSupervised(c, |log.calls|);
    AnswerIsUnobjected(c, log.calls, o, |log.calls|);
    RecordIsSound(c, log, o);
  }

  lemma {:induction false} CooperativeRunFrom(c: Setting, log: Log)
    requires Ready(c) && Cooperative(c) && ProducersFirst(c.manifest) && Sound(c, log) && log.failure.None?
    ensures RunFrom(c, log).failure.None?
    decreases |c.manifest.schedule| - |log.calls|
  {
    if |log.calls| < |c.manifest.schedule| {
      StepMakesProgress(c, log);
      StepIsSound(c, log);
      CooperativeStep(c, log);
      CooperativeRunFrom(c, Step(c, log));
    }
  }

  /** A cooperative executor takes the run through its whole schedule. */
  lemma CooperativeRunFinishes(c: Setting)
    requires Ready(c) && Cooperative(c) && ProducersFirst(c.manifest)
    ensures Execute(c).failure.None? && |Execute(c).calls| == |c.manifest.schedule|
  {
    CooperativeRunFrom(c, Log([], [], None));
    RunIsSound(c);
  }

  /** The builder's schedules put every producer first. */
  lemma BuiltProducersFirst(frozen: Frozen, digest: Text)
    ensures ProducersFirst(Build(frozen, digest))
  {
    var m := Build(frozen, digest);
    forall k | 0 <= k < |m.schedule| && m.schedule[k].actor.ResponderB?
      ensures Call(m.schedule[k].sample, ProducerA) in m.schedule[..k]
    {
      BuiltProducersComeFirst(frozen, digest, k);
      assert m.schedule[..k][k - 1] == m.schedule[k - 1];
    }
  }

  lemma FinishedRunArm(c: Setting, i: nat)
    requires Ready(c) && Execute(c).failure.None? && i < |ResponderSamples(c.manifest.schedule)|
    ensures i < |Execute(c).arms| && |Execute(c).arms| == |ResponderSamples(c.manifest.schedule)|
    ensures Execute(c).arms[i].sample == ResponderSamples(c.manifest.schedule)[i]
    ensures Execute(c).arms[i].sample in ArmsBySample(c.manifest)
  {
    FinishedRun(c);
    ArmsFollowResponders(c, Execute(c).calls);
    assert c.manifest.schedule[..|Execute(c).calls|] == c.manifest.schedule;
    assert Faithful(c, Execute(c).arms[i]);
  }
}
