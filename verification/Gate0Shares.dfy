/**
 What an executed responder proves of its producer. On a conforming built manifest it proves that the
 producer's text passes through to the planned request, and nothing more: some run has every such text.
 */
module Gate0Shares {
  import opened Wrappers
  import opened Scalars
  import opened Collections
  import opened Gate0Plan
  import opened Gate0Run
  import opened Gate0Safety
  import opened Gate0Results
  import opened Gate0Replay
  import opened Gate0Liveness
  import opened Gate0Executors

  /** In the run the sample's producer emitted the text, and its responder was executed after it. */
  ghost predicate Answered(c: Setting, x: SampleId, t: Text)
    requires Ready(c)
  {
    exists p, k :: 0 <= p < k < |Execute(c).calls|
      && EmittedAt(c, p, x, t) && Execute(c).calls[k].scheduledCall == Call(x, ResponderB)
  }

  predicate EmittedAt(c: Setting, p: nat, x: SampleId, t: Text)
    requires Ready(c) && p < |Execute(c).calls|
  {
    Execute(c).calls[p].scheduledCall == Call(x, ProducerA) && EmittedText(Execute(c).calls[p].result) == Some(t)
  }

  /** Some run on the manifest answers this text of the sample's producer. */
  ghost predicate Answerable(frozen: Frozen, digest: Text, x: SampleId, t: Text) {
    exists c: Setting :: c.manifest == Build(frozen, digest) && Runnable(c) && Answered(c, x, t)
  }

  lemma EmittedTextIsEncodable(c: Setting, p: nat)
    requires Ready(c) && p < |Execute(c).calls| && EmittedText(Execute(c).calls[p].result).Some?
    ensures Encodable(EmittedText(Execute(c).calls[p].result).value)
  {
    CallsFollowTheSchedule(c, p);
  }

  lemma OneCallOfAKind(c: Setting, p: nat, q: nat)
    requires Runnable(c) && p < |Execute(c).calls| && q < |Execute(c).calls|
    requires Execute(c).calls[p].scheduledCall == Execute(c).calls[q].scheduledCall
    ensures p == q
  {
    ScheduleIsPlanned(c.manifest);
    CallsFollowTheSchedule(c, p);
    CallsFollowTheSchedule(c, q);
  }

  lemma AnsweredTextPasses(c: Setting, frozen: Frozen, digest: Text, i: nat, x: SampleId, t: Text)
    requires Buildable(frozen) && c.manifest == Build(frozen, digest) && Runnable(c) && Answered(c, x, t)
    requires i < |frozen.items| && frozen.items[i].id == x.item
    ensures Passes(frozen.items[i], x.arm, t)
  {
    var p, k :| 0 <= p < k < |Execute(c).calls|
      && EmittedAt(c, p, x, t) && Execute(c).calls[k].scheduledCall == Call(x, ResponderB);
    var q := BuiltRunForcesTheShare(c, frozen, digest, i, k);
    OneCallOfAKind(c, p, q);
    EmittedTextIsEncodable(c, p);
  }

  /** A finished run of the willing executor has its producers say what the script has them say. */
  lemma ScriptIsSpoken(frozen: Frozen, digest: Text, tag: SampleId -> Bytes, script: Script, p: nat)
    requires Buildable(frozen) && Conforms(Build(frozen, digest)) && Passable(Build(frozen, digest), script)
    requires Ready(Willing(frozen, digest, tag, script)) && p < |Execute(Willing(frozen, digest, tag, script)).calls|
    requires Execute(Willing(frozen, digest, tag, script)).calls[p].scheduledCall.actor.ProducerA?
    ensures var o := Execute(Willing(frozen, digest, tag, script)).calls[p];
      EmittedText(o.result) == Some(Spoken(Build(frozen, digest), script, o.scheduledCall.sample))
  {
    var c := Willing(frozen, digest, tag, script);
    WillingSetting(frozen, digest, tag, script);
    CallsFollowTheSchedule(c, p);
    var id := c.manifest.schedule[p];
    ScheduledSpeech(c, frozen, digest, tag, script, p, id);
  }

  lemma ScheduledSpeech(
      c: Setting, frozen: Frozen, digest: Text, tag: SampleId -> Bytes, script: Script, p: nat, id: CallId)
    requires Buildable(frozen) && Passable(Build(frozen, digest), script) && c == Willing(frozen, digest, tag, script)
    requires c.manifest == Build(frozen, digest) && Ready(c) && id.actor.ProducerA? && id.sample in ArmsBySample(c.manifest)
    requires Supervised(c.deadline, PlanOf(c.manifest, id), c.executor(p, PlanOf(c.manifest, id))).Some?
    ensures EmittedText(Supervised(c.deadline, PlanOf(c.manifest, id), c.executor(p, PlanOf(c.manifest, id))).value)
      == Some(Spoken(c.manifest, script, id.sample))
  {
    var plan := PlanOf(c.manifest, id);
    ArmForSample(c.manifest, id);
    WillingExecutor(frozen, digest, tag, script, p, plan);
    SpokenKeepsResponder(frozen, digest, tag, script, id.sample);
    WillingResultIsOwn(c.manifest, script, p, plan);
  }

  lemma ResponderIsScheduled(m: Manifest, x: SampleId) returns (k: nat)
    requires multiset(m.schedule) == multiset(CallIds(m.arms)) && x in ArmsBySample(m)
    ensures k < |m.schedule| && m.schedule[k] == Call(x, ResponderB)
  {
    ScheduledResponder(m, x);
    ResponderSampleMembers(m.schedule, x);
    k :| 0 <= k < |m.schedule| && m.schedule[k] == Call(x, ResponderB);
  }

  lemma ScheduledPair(frozen: Frozen, digest: Text, x: SampleId) returns (k: nat)
    requires Buildable(frozen) && x in ArmsBySample(Build(frozen, digest))
    ensures 0 < k < |Build(frozen, digest).schedule|
    ensures Build(frozen, digest).schedule[k] == Call(x, ResponderB)
    ensures Build(frozen, digest).schedule[k - 1] == Call(x, ProducerA)
  {
    BuiltManifestIsValid(frozen, digest);
    k := ResponderIsScheduled(Build(frozen, digest), x);
    BuiltProducersComeFirst(frozen, digest, k);
  }

  lemma FinishedCall(c: Setting, k: nat)
    requires Ready(c) && Execute(c).failure.None? && k < |c.manifest.schedule|
    ensures |Execute(c).calls| == |c.manifest.schedule| && Execute(c).calls[k].scheduledCall == c.manifest.schedule[k]
  {
    FinishedRun(c);
    CallsFollowTheSchedule(c, k);
  }

  /** A finished run in which the sample's producer emitted the text has answered it. */
  lemma FinishedRunAnswers(c: Setting, k: nat, x: SampleId, t: Text)
    requires Ready(c) && Execute(c).failure.None? && 0 < k < |c.manifest.schedule|
    requires c.manifest.schedule[k - 1] == Call(x, ProducerA) && c.manifest.schedule[k] == Call(x, ResponderB)
    requires forall p :: 0 <= p < |Execute(c).calls| && Execute(c).calls[p].scheduledCall == Call(x, ProducerA) ==>
      EmittedAt(c, p, x, t)
    ensures Answered(c, x, t)
  {
    FinishedCall(c, k - 1);
    FinishedCall(c, k);
    assert EmittedAt(c, k - 1, x, t);
  }

  lemma WillingSays(frozen: Frozen, digest: Text, tag: SampleId -> Bytes, script: Script, x: SampleId, p: nat)
    requires Buildable(frozen) && Conforms(Build(frozen, digest)) && Passable(Build(frozen, digest), script) && x in script
    requires Ready(Willing(frozen, digest, tag, script)) && p < |Execute(Willing(frozen, digest, tag, script)).calls|
    requires Execute(Willing(frozen, digest, tag, script)).calls[p].scheduledCall == Call(x, ProducerA)
    ensures EmittedAt(Willing(frozen, digest, tag, script), p, x, script[x])
  {
    ScriptIsSpoken(frozen, digest, tag, script, p);
  }

  lemma WillingIsAnswered(frozen: Frozen, digest: Text, tag: SampleId -> Bytes, script: Script, x: SampleId)
    requires Buildable(frozen) && Conforms(Build(frozen, digest)) && x in ArmsBySample(Build(frozen, digest))
    requires Passable(Build(frozen, digest), script) && x in script
    ensures var c := Willing(frozen, digest, tag, script);
      c.manifest == Build(frozen, digest) && Runnable(c) && Answered(c, x, script[x])
  {
    var c := Willing(frozen, digest, tag, script);
    WillingFinishes(frozen, digest, tag, script);
    forall p | 0 <= p < |Execute(c).calls| && Execute(c).calls[p].scheduledCall == Call(x, ProducerA)
      ensures EmittedAt(c, p, x, script[x])
    {
      WillingSays(frozen, digest, tag, script, x, p);
    }
    var k := ScheduledPair(frozen, digest, x);
    FinishedRunAnswers(c, k, x, script[x]);
  }

  /**
   Which texts a planned sample's producer may have emitted when its responder is executed: exactly the
   share in the intact and private-A arms, exactly the encodable texts of the share's length that are not
   all `N` in the neutral arm, and every non-empty encodable text in the arms without a delivery.
   */
  lemma AnswerableExactly(frozen: Frozen, digest: Text, i: nat, x: SampleId, t: Text)
    requires Buildable(frozen) && Conforms(Build(frozen, digest)) && x in ArmsBySample(Build(frozen, digest))
    requires i < |frozen.items| && frozen.items[i].id == x.item
    ensures Answerable(frozen, digest, x, t) <==> Passes(frozen.items[i], x.arm, t)
  {
    if Answerable(frozen, digest, x, t) {
      var c: Setting :| c.manifest == Build(frozen, digest) && Runnable(c) && Answered(c, x, t);
      AnsweredTextPasses(c, frozen, digest, i, x, t);
    }
    if Passes(frozen.items[i], x.arm, t) {
      var j := BuiltItem(frozen, digest, x);
      assert ItemId(frozen.items[i]) == ItemId(frozen.items[j]);
      WillingIsAnswered(frozen, digest, y => [], map[x := t], x);
    }
  }
}
