/**
 An executor that gives a built manifest what it asks for. Its producers speak their planned shares,
 or any other texts that leave the planned requests of their responders as they are.
 */
module Gate0Executors {
  import opened Wrappers
  import opened Scalars
  import opened Collections
  import opened Gate0Plan
  import opened Gate0Run
  import opened Gate0Safety
  import opened Gate0Results
  import opened Gate0Replay
  import opened Gate0Liveness
  import Analysis = Gate0Analysis

  /** What the builder is handed: distinct items whose shares encode, and ranks of sixteen hexadecimal digits. */
  ghost predicate Buildable(frozen: Frozen) {
    && frozen.items != [] && |frozen.items| <= 250 && DistinctBy(ItemId, frozen.items)
    && (forall i :: 0 <= i < |frozen.items| ==> Encodable(ArtifactText(frozen.items[i])))
    && forall sample :: frozen.rank(sample) < LENGTH_LIMIT
  }

  /** A text that the responder's planned request survives: the share itself where it is delivered, one
      with the same neutral form where that is, and any where nothing is. */
  predicate Passes(item: Item, arm: Arm, t: Text) {
    && t != [] && Encodable(t)
    && match arm
       case IntactExchange => t == ArtifactText(item)
       case PrivateAOnly => t == ArtifactText(item)
       case MatchedNeutral => |t| == |ArtifactText(item)| && !AllN(t)
       case _ => true
  }

  /** What the producers say instead of their shares, sample by sample. */
  type Script = map<SampleId, Text>

  predicate Passable(m: Manifest, script: Script) {
    forall x :: x in script ==> x.item in ItemsById(m) && Passes(ItemsById(m)[x.item], x.arm, script[x])
  }

  function Spoken(m: Manifest, script: Script, x: SampleId): Text {
    if x in script then script[x]
    else if x.item in ItemsById(m) then ArtifactText(ItemsById(m)[x.item])
    else [115]
  }

  /** A valid answer in no time at the planned price: the text to be spoken, or some answer. */
  function WillingResult(m: Manifest, script: Script, k: nat, call: CallPlan): CallResult {
    CallResult(
      call.callId, RequestDigest(call), ContextOf(call), Digest(call.pairKey), m.providerConfig, true,
      Some([0x4E00 + k % 10000]),
      if call.callId.actor.ProducerA? then map[ARTIFACT_TEXT := TextValue(Spoken(m, script, call.callId.sample))]
      else map[ANSWER := TextValue([65])],
      Some(Usage(Some(Tokens(PricedUnits(call.payload), 0, 0, 0)), Some(Cost(0.0, 0.0)))), 0, Valid, None)
  }

  function Willing(frozen: Frozen, digest: Text, tag: SampleId -> Bytes, script: Script): Setting {
    var m := Build(frozen, digest);
    Setting(m, Fixture, None, None, 1, Analysis.Thresholds(0.0, 0.0, 0.0, 0.0, 0.0, 0.0, 0.0), (diffs: seq<real>) => 0.0,
            (id: CallId) => [], tag, (k: nat, call: CallPlan) => Returned(WillingResult(m, script, k, call)))
  }

  lemma BuiltItem(frozen: Frozen, digest: Text, x: SampleId) returns (i: nat)
    requires Buildable(frozen) && x in ArmsBySample(Build(frozen, digest))
    ensures i < |frozen.items| && frozen.items[i].id == x.item
    ensures x.item in ItemsById(Build(frozen, digest)) && ItemsById(Build(frozen, digest))[x.item] == frozen.items[i]
    ensures ArmsBySample(Build(frozen, digest))[x].responder.artifact == DeliveredText(frozen.items[i], x.arm)
    ensures ArmsBySample(Build(frozen, digest))[x].pairKey == PairKey(x, frozen.providerConfig)
    ensures ArmsBySample(Build(frozen, digest))[x].sample == x
  {
    var m := Build(frozen, digest);
    IndexDomain(SampleOf, m.arms, x);
    var k :| 0 <= k < |BuildArms(frozen)| && BuildArms(frozen)[k] == ArmsBySample(m)[x];
    i := k / 20;
    IndexContent(ItemId, frozen.items, i);
  }

  lemma WillingAnswers(frozen: Frozen, digest: Text, tag: SampleId -> Bytes, script: Script, k: nat)
    requires Buildable(frozen) && Passable(Build(frozen, digest), script) && Ready(Willing(frozen, digest, tag, script)) && k < |Build(frozen, digest).schedule| <= 10000
    requires Build(frozen, digest).schedule[k].sample in ArmsBySample(Build(frozen, digest))
    ensures AnswersWell(Willing(frozen, digest, tag, script), k)
    ensures AnswerTo(Willing(frozen, digest, tag, script), k).responseId == Some([0x4E00 + k])
  {
    var c := Willing(frozen, digest, tag, script);
    WillingSetting(frozen, digest, tag, script);
    var id := c.manifest.schedule[k];
    var i := BuiltItem(frozen, digest, id.sample);
    WillingExecutor(frozen, digest, tag, script, k, PlanOf(c.manifest, id));
    SpokenKeepsResponder(frozen, digest, tag, script, id.sample);
    WillingAnswerIsGood(c, script, k);
  }

  lemma WillingAnswerIsGood(c: Setting, script: Script, k: nat)
    requires Ready(c) && k < |c.manifest.schedule| <= 10000 && c.manifest.schedule[k].sample in ArmsBySample(c.manifest)
    requires var plan := PlanOf(c.manifest, c.manifest.schedule[k]);
      c.executor(k, plan) == Returned(WillingResult(c.manifest, script, k, plan))
    requires var x := c.manifest.schedule[k].sample;
      var text := Spoken(c.manifest, script, x);
      Encodable(text) && text != [] && KeepsResponder(c, x, text)
    ensures AnswersWell(c, k) && AnswerTo(c, k).responseId == Some([0x4E00 + k])
  {
    var id := c.manifest.schedule[k];
    var plan := PlanOf(c.manifest, id);
    ArmForSample(c.manifest, id);
    assert plan.callId == id;
    WillingResultIsValid(c.manifest, script, k, plan);
    WillingResultIsOwn(c.manifest, script, k, plan);
  }

  lemma WillingExecutor(frozen: Frozen, digest: Text, tag: SampleId -> Bytes, script: Script, k: nat, call: CallPlan)
    ensures Willing(frozen, digest, tag, script).executor(k, call) == Returned(WillingResult(Build(frozen, digest), script, k, call))
  {
  }

  lemma WillingResultIsOwn(m: Manifest, script: Script, k: nat, call: CallPlan)
    requires Spoken(m, script, call.callId.sample) != []
    ensures !CrossedResult(WillingResult(m, script, k, call), call, m)
    ensures call.callId.actor.ProducerA? ==>
      EmittedText(WillingResult(m, script, k, call)) == Some(Spoken(m, script, call.callId.sample))
  {
  }

  lemma WillingResultIsValid(m: Manifest, script: Script, k: nat, call: CallPlan)
    requires Encodable(Spoken(m, script, call.callId.sample))
    ensures ValidResult(WillingResult(m, script, k, call))
  {
    var r := WillingResult(m, script, k, call);
    assert (if call.callId.actor.ProducerA? then ARTIFACT_TEXT else ANSWER) in r.output;
  }

  lemma SpokenKeepsResponder(frozen: Frozen, digest: Text, tag: SampleId -> Bytes, script: Script, x: SampleId)
    requires Buildable(frozen) && Passable(Build(frozen, digest), script) && Ready(Willing(frozen, digest, tag, script)) && x in ArmsBySample(Build(frozen, digest))
    ensures Spoken(Build(frozen, digest), script, x) != [] && Encodable(Spoken(Build(frozen, digest), script, x))
    ensures KeepsResponder(Willing(frozen, digest, tag, script), x, Spoken(Build(frozen, digest), script, x))
  {
    var i := BuiltItem(frozen, digest, x);
    var share := ArtifactText(frozen.items[i]);
    assert share[0] == 115;
    if x in script && x.arm.MatchedNeutral? {
      SameNeutralText(script[x], share);
    }
  }

  /** It answers every call of every conforming built manifest well, so its run finishes. */
  lemma WillingFinishes(frozen: Frozen, digest: Text, tag: SampleId -> Bytes, script: Script)
    requires Buildable(frozen) && Conforms(Build(frozen, digest)) && Passable(Build(frozen, digest), script)
    ensures var c := Willing(frozen, digest, tag, script);
      && c.manifest == Build(frozen, digest) && Authorized(c) && Runnable(c) && Cooperative(c)
      && Execute(c).failure.None?
  {
    var c := Willing(frozen, digest, tag, script);
    WillingSetting(frozen, digest, tag, script);
    BuiltRunIsRunnable(c, frozen, digest);
    WillingIsCooperative(c, frozen, digest, tag, script);
    BuiltProducersFirst(frozen, digest);
    CooperativeRunFinishes(c);
  }

  lemma WillingSetting(frozen: Frozen, digest: Text, tag: SampleId -> Bytes, script: Script)
    ensures Willing(frozen, digest, tag, script).manifest == Build(frozen, digest) && Authorized(Willing(frozen, digest, tag, script))
    ensures Willing(frozen, digest, tag, script).sampleTag == tag
  {
  }

  lemma WillingIsCooperative(c: Setting, frozen: Frozen, digest: Text, tag: SampleId -> Bytes, script: Script)
    requires Buildable(frozen) && Passable(Build(frozen, digest), script) && c == Willing(frozen, digest, tag, script) && c.manifest == Build(frozen, digest) && Runnable(c)
    ensures Cooperative(c)
  {
    ScheduleIsPlanned(c.manifest);
    forall k | 0 <= k < |c.manifest.schedule|
      ensures AnswersWell(c, k) && AnswerTo(c, k).responseId == Some([0x4E00 + k])
    {
      WillingAnswers(frozen, digest, tag, script, k);
    }
  }
}
