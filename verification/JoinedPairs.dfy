/**
 What a joined pair of runs has in common. A join compares the two envelopes and the bound delivery;
 whether the arms also read the same values elsewhere shows in their artifact tables.
 */
module JoinedPairs {
  import opened Wrappers
  import opened Scalars
  import opened RunEvidence
  import opened Interventions

  // When two runs join

  /** Everything outside the evidence flow that a join compares. */
  predicate SameEnvelope(intact: Evidence, neutral: Evidence, iv: Intervention) {
    && intact.arm.IntactArm? && neutral.arm.NeutralArm? && iv.source == intact
    && neutral.intervention == Some(InterventionDigest(iv))
    && intact.identity == neutral.identity && intact.pairKey == neutral.pairKey && intact.protocol == neutral.protocol
    && intact.calls == neutral.calls && intact.calls != [] && intact.routes == neutral.routes && intact.cost == neutral.cost
  }

  /** The bound call was handed the bound neutral value in place of the bound artifact. */
  ghost predicate HandsOver(neutral: Evidence, iv: Intervention) {
    exists d :: ReplacedDelivery(neutral, d) && DeliveryKey(d) == (iv.artifact, iv.consumer) && d.observed == iv.neutral
  }

  /** Two runs, the neutral one accepted, join exactly when their envelopes agree and the neutral run
      hands the replacement over: the read and the delivery's own digest then follow. */
  lemma JoinsExactly(intact: Evidence, neutral: Evidence, iv: Intervention)
    requires WellFormed(neutral) && ValidFlow(neutral)
    ensures JoinRuns(intact, neutral, iv).Ok? <==> SameEnvelope(intact, neutral, iv) && HandsOver(neutral, iv)
  {
    if JoinRuns(intact, neutral, iv).Ok? {
      JoinMeansEnvelope(intact, neutral, iv);
      var bound := JoinFacts(intact, neutral, iv);
    } else if SameEnvelope(intact, neutral, iv) && HandsOver(neutral, iv) {
      var d :| ReplacedDelivery(neutral, d) && DeliveryKey(d) == (iv.artifact, iv.consumer) && d.observed == iv.neutral;
      HandedOverIsRead(neutral, d);
      EnvelopeJoins(intact, neutral, iv, d);
    }
  }

  lemma JoinMeansEnvelope(intact: Evidence, neutral: Evidence, iv: Intervention)
    requires JoinRuns(intact, neutral, iv).Ok?
    ensures SameEnvelope(intact, neutral, iv)
  {
  }

  lemma EnvelopeJoins(intact: Evidence, neutral: Evidence, iv: Intervention, d: Delivery)
    requires SameEnvelope(intact, neutral, iv) && ReplacedDelivery(neutral, d) && d.intervention == neutral.intervention
    requires FirstDelivery(neutral, (iv.artifact, iv.consumer)) == Some(d) && d.observed == iv.neutral
    requires FirstRead(neutral, (iv.artifact, iv.consumer)).Some?
    requires FirstRead(neutral, (iv.artifact, iv.consumer)).value.observed == iv.neutral
    ensures JoinRuns(intact, neutral, iv).Ok?
  {
  }

  lemma HandedOverIsRead(neutral: Evidence, d: Delivery)
    requires WellFormed(neutral) && ValidFlow(neutral) && neutral.arm.NeutralArm? && ReplacedDelivery(neutral, d)
    ensures FirstDelivery(neutral, DeliveryKey(d)) == Some(d) && d.intervention == neutral.intervention
    ensures FirstRead(neutral, DeliveryKey(d)).Some?
    ensures FirstRead(neutral, DeliveryKey(d)).value.observed == d.observed
  {
    var only := NeutralRunHasOneException(neutral);
    NeutralRunHasOneReplacement(neutral);
    OnlyOneReplaced(neutral.deliveries, only, d);
    var first := FirstDelivery(neutral, DeliveryKey(d));
    assert first.Some?;
    SameKeySameDelivery(neutral, first.value, d);
    var r :| r in neutral.readLog && r.kind.Direct? && ReadKey(r) == DeliveryKey(d);
  }

  // What the calls of two joined runs read

  ghost predicate ReadsValue(e: Evidence, key: Key, v: Observed) {
    exists r :: r in e.readLog && ReadKey(r) == key && r.observed == v
  }

  /** The arms differ in what their calls read only through the bound delivery. */
  ghost predicate AgreeOutside(intact: Evidence, neutral: Evidence, bound: Key) {
    forall key, v :: key != bound ==> (ReadsValue(intact, key, v) <==> ReadsValue(neutral, key, v))
  }

  predicate Lists(a: Artifact, key: Key) {
    a.id == key.0 && key.1 in a.consumers
  }

  ghost predicate Listed(e: Evidence, key: Key) {
    exists a :: a in e.artifacts && Lists(a, key)
  }

  /** The artifact tables name the same consumers elsewhere, and give them the same values. */
  ghost predicate TablesAgree(intact: Evidence, neutral: Evidence, bound: Key) {
    && (forall key :: key != bound ==> (Listed(intact, key) <==> Listed(neutral, key)))
    && forall key, a, b :: key != bound && a in intact.artifacts && b in neutral.artifacts && Lists(a, key) && Lists(b, key) ==>
      a.observed == b.observed
  }

  ghost predicate ListsValue(e: Evidence, key: Key, v: Observed) {
    exists a :: a in e.artifacts && Lists(a, key) && a.observed == v
  }

  /** Where reads carry what was produced, the artifact table tells what was read. */
  lemma TableTellsReads(e: Evidence, key: Key, v: Observed)
    requires WellFormed(e) && ValidFlow(e)
    requires forall r :: r in e.readLog && ReadKey(r) == key ==> Produced(e, r.artifact, r.observed)
    ensures ReadsValue(e, key, v) <==> ListsValue(e, key, v)
  {
    if ReadsValue(e, key, v) {
      var r :| r in e.readLog && ReadKey(r) == key && r.observed == v;
      var a :| a in e.artifacts && a.id == r.artifact && a.observed == r.observed;
      assert HasRead(e.readLog, (a.id, key.1));
      assert Lists(a, key);
    }
    if ListsValue(e, key, v) {
      var a :| a in e.artifacts && Lists(a, key) && a.observed == v;
      assert HasRead(e.readLog, (a.id, key.1));
      var r :| r in e.readLog && ReadKey(r) == (a.id, key.1);
      var b :| b in e.artifacts && b.id == r.artifact && b.observed == r.observed;
      SameIdSameArtifact(e, a, b);
    }
  }

  lemma JoinedReads(intact: Evidence, neutral: Evidence, iv: Intervention, key: Key, v: Observed)
    requires WellFormed(intact) && ValidFlow(intact) && WellFormed(neutral) && ValidFlow(neutral)
    requires JoinRuns(intact, neutral, iv).Ok? && key != (iv.artifact, iv.consumer)
    ensures ReadsValue(intact, key, v) <==> ListsValue(intact, key, v)
    ensures ReadsValue(neutral, key, v) <==> ListsValue(neutral, key, v)
  {
    forall r | r in intact.readLog ensures Produced(intact, r.artifact, r.observed) {
      JoinedIntactRunIsProduced(intact, neutral, iv, r);
    }
    JoinedNeutralRunDiffersOnlyThere(intact, neutral, iv);
    TableTellsReads(intact, key, v);
    TableTellsReads(neutral, key, v);
  }

  /** In a joined pair of accepted runs the arms read the same values everywhere but at the bound
      delivery exactly when their artifact tables agree there. */
  lemma AgreeOutsideExactly(intact: Evidence, neutral: Evidence, iv: Intervention)
    requires WellFormed(intact) && ValidFlow(intact) && WellFormed(neutral) && ValidFlow(neutral)
    requires JoinRuns(intact, neutral, iv).Ok?
    ensures AgreeOutside(intact, neutral, (iv.artifact, iv.consumer))
      <==> TablesAgree(intact, neutral, (iv.artifact, iv.consumer))
  {
    var bound := (iv.artifact, iv.consumer);
    forall key, v | key != bound
      ensures ReadsValue(intact, key, v) <==> ListsValue(intact, key, v)
      ensures ReadsValue(neutral, key, v) <==> ListsValue(neutral, key, v)
    {
      JoinedReads(intact, neutral, iv, key, v);
    }
    if AgreeOutside(intact, neutral, bound) {
      AgreeingReadsAgreeInTables(intact, neutral, bound);
    }
    if TablesAgree(intact, neutral, bound) {
      forall key, v | key != bound ensures ListsValue(intact, key, v) <==> ListsValue(neutral, key, v) {
        AgreeingTables(intact, neutral, bound, key, v);
      }
    }
  }

  lemma AgreeingReadsAgreeInTables(intact: Evidence, neutral: Evidence, bound: Key)
    requires WellFormed(intact) && WellFormed(neutral)
    requires forall key, v :: key != bound ==> (ListsValue(intact, key, v) <==> ListsValue(neutral, key, v))
    ensures TablesAgree(intact, neutral, bound)
  {
    forall key | key != bound ensures Listed(intact, key) <==> Listed(neutral, key) {
      if a :| a in intact.artifacts && Lists(a, key) {
        assert ListsValue(intact, key, a.observed);
        assert ListsValue(neutral, key, a.observed);
      }
      if b :| b in neutral.artifacts && Lists(b, key) {
        assert ListsValue(neutral, key, b.observed);
        assert ListsValue(intact, key, b.observed);
      }
    }
    forall key, a, b | key != bound && a in intact.artifacts && b in neutral.artifacts && Lists(a, key) && Lists(b, key)
      ensures a.observed == b.observed
    {
      assert ListsValue(intact, key, a.observed);
      var c :| c in neutral.artifacts && Lists(c, key) && c.observed == a.observed;
      SameIdSameArtifact(neutral, b, c);
    }
  }

  lemma AgreeingTables(intact: Evidence, neutral: Evidence, bound: Key, key: Key, v: Observed)
    requires TablesAgree(intact, neutral, bound) && key != bound
    ensures ListsValue(intact, key, v) <==> ListsValue(neutral, key, v)
  {
    if ListsValue(intact, key, v) {
      var a :| a in intact.artifacts && Lists(a, key) && a.observed == v;
      assert Listed(intact, key);
      var b :| b in neutral.artifacts && Lists(b, key);
    }
    if ListsValue(neutral, key, v) {
      var b :| b in neutral.artifacts && Lists(b, key) && b.observed == v;
      assert Listed(neutral, key);
      var a :| a in intact.artifacts && Lists(a, key);
    }
  }

  // A pair of runs

  const ORIGINAL: Text := [97]
  const REPLACEMENT: Text := [78]
  const PRODUCER: Text := [80]
  const CHANNEL: Text := [99]
  const FIRST: Text := [49]
  const SECOND: Text := [50]
  const SUCCEEDED: Text := [115, 117, 99, 99, 101, 101, 100, 101, 100]

  /** Where the two runs are made: any identity, pair key and protocol, on any deployment. */
  datatype Surroundings = Surroundings(
    identity: seq<Text>, pairKey: Text, protocol: Text, deployment: Text, provider: Text, model: Text)

  function Said(t: Text): Observed {
    Observed(TextValue(t))
  }

  /** One artifact, delivered to one call of its own and read there. */
  function ArtifactOf(id: Text, t: Text): Artifact {
    Artifact(id, CHANNEL, PRODUCER, true, Said(t), |Utf8(t)|, [id])
  }

  function ContextOf(id: Text, t: Text): Context {
    Context(id, id, id, [Entry(id, FromArtifact, id, Said(t))])
  }

  function DeliveryOf(id: Text, t: Text, kind: DeliveryKind, intervention: Option<InterventionDigest>): Delivery {
    Delivery(id, id, CHANNEL, PRODUCER, id, kind, intervention, Said(t), |Utf8(t)|)
  }

  function ReadOf(id: Text, t: Text): Read {
    Read(id, id, CHANNEL, id, id, id, Direct, Some(id), Said(t), |Utf8(t)|)
  }

  /** One sent provider call, made by an actor of its own. */
  function CallFor(w: Surroundings, id: Text): CallShape {
    CallShape(id, id, 0, w.deployment, w.provider, w.model, SUCCEEDED, true)
  }

  /** Two artifacts, each read by one call; the first is delivered as `handed`. */
  function RunOf(w: Surroundings, arm: Arm, intervention: Option<InterventionDigest>, handed: Text, other: Text): Evidence {
    var kind := if arm.IntactArm? then Intact else NeutralReplacement;
    Evidence(w.identity + [w.deployment, w.provider, w.model], w.pairKey, w.protocol, arm, intervention,
             [ContextOf(FIRST, handed), ContextOf(SECOND, other)],
             [ArtifactOf(FIRST, ORIGINAL), ArtifactOf(SECOND, other)],
             [DeliveryOf(FIRST, handed, kind, intervention), DeliveryOf(SECOND, other, Intact, None)],
             [ReadOf(FIRST, handed), ReadOf(SECOND, other)],
             [CallFor(w, FIRST), CallFor(w, SECOND)], [], Cost(2, 0, 0, 0, 0, 0))
  }

  function IntactRun(w: Surroundings, other: Text): Evidence {
    RunOf(w, IntactArm, None, ORIGINAL, other)
  }

  function BoundIntervention(w: Surroundings, other: Text): Intervention {
    Intervention(IntactRun(w, other), w.pairKey, w.protocol, FIRST, CHANNEL, PRODUCER, FIRST, FIRST, FIRST, FIRST, FIRST,
                 Said(ORIGINAL), Said(REPLACEMENT), 1, 1)
  }

  function NeutralRun(w: Surroundings, intactOther: Text, other: Text): Evidence {
    RunOf(w, NeutralArm, Some(InterventionDigest(BoundIntervention(w, intactOther))), REPLACEMENT, other)
  }

  lemma RunIsWellFormed(w: Surroundings, arm: Arm, intervention: Option<InterventionDigest>, handed: Text, other: Text)
    requires arm.NeutralArm? <==> intervention.Some?
    ensures WellFormed(RunOf(w, arm, intervention, handed, other))
  {
  }

  lemma ReadIsOk(w: Surroundings, arm: Arm, intervention: Option<InterventionDigest>, handed: Text, other: Text, i: nat)
    requires i < 2 && (arm.NeutralArm? <==> intervention.Some?)
    ensures var e := RunOf(w, arm, intervention, handed, other); ReadOk(e, e.readLog[i])
  {
    var e := RunOf(w, arm, intervention, handed, other);
    var r := e.readLog[i];
    assert e.artifacts[i] in e.artifacts && Names(e.artifacts[i], r.artifact);
    assert e.deliveries[i] in e.deliveries && ReadsDelivery(r, e.deliveries[i]);
    var c := e.contexts[i];
    assert c in e.contexts && c.entries[0] in c.entries && NamesEntry(r, c, c.entries[0]);
  }

  lemma DeliveryIsOk(w: Surroundings, arm: Arm, intervention: Option<InterventionDigest>, handed: Text, other: Text, i: nat)
    requires i < 2 && (arm.NeutralArm? <==> intervention.Some?)
    requires handed == (if arm.IntactArm? then ORIGINAL else REPLACEMENT)
    ensures var e := RunOf(w, arm, intervention, handed, other); DeliveryOk(e, e.deliveries[i])
  {
    var e := RunOf(w, arm, intervention, handed, other);
    assert e.artifacts[i] in e.artifacts && FlowsFrom(e, e.deliveries[i], e.artifacts[i]);
  }

  lemma RunHasReads(w: Surroundings, arm: Arm, intervention: Option<InterventionDigest>, handed: Text, other: Text, key: Key)
    ensures var e := RunOf(w, arm, intervention, handed, other);
      (HasRead(e.readLog, key) <==> key == (FIRST, FIRST) || key == (SECOND, SECOND))
      && (HasDirectRead(e.readLog, key) <==> key == (FIRST, FIRST) || key == (SECOND, SECOND))
  {
    var e := RunOf(w, arm, intervention, handed, other);
    assert e.readLog[0] in e.readLog && e.readLog[1] in e.readLog;
    assert ReadKey(e.readLog[0]) == (FIRST, FIRST) && ReadKey(e.readLog[1]) == (SECOND, SECOND);
  }

  lemma EitherOf<T>(xs: seq<T>, x: T)
    requires |xs| == 2 && x in xs
    ensures x == xs[0] || x == xs[1]
  {
  }

  lemma FlowOfParts(e: Evidence)
    requires forall d :: d in e.deliveries ==> DeliveryOk(e, d)
    requires forall i, j :: 0 <= i < j < |e.deliveries| ==> DeliveryKey(e.deliveries[i]) != DeliveryKey(e.deliveries[j])
    requires Replacements(e.deliveries) == (if e.arm.NeutralArm? then 1 else 0)
    requires forall r :: r in e.readLog ==> ReadOk(e, r)
    requires forall d :: d in e.deliveries ==> HasDirectRead(e.readLog, DeliveryKey(d))
    requires forall a, x :: a in e.artifacts ==> (x in a.consumers <==> HasRead(e.readLog, (a.id, x)))
    requires forall c, entry :: c in e.contexts && entry in c.entries && entry.kind.FromArtifact? ==>
      HasRead(e.readLog, (entry.ref, c.callId))
    ensures ValidFlow(e)
  {
  }

  lemma RunReplacements(w: Surroundings, arm: Arm, intervention: Option<InterventionDigest>, handed: Text, other: Text)
    ensures Replacements(RunOf(w, arm, intervention, handed, other).deliveries) == if arm.NeutralArm? then 1 else 0
  {
    var deliveries := RunOf(w, arm, intervention, handed, other).deliveries;
    assert deliveries[..1] == [deliveries[0]] && deliveries[..1][..0] == [];
    assert Replacements(deliveries[..1]) == if arm.NeutralArm? then 1 else 0;
  }

  lemma RunConsequences(w: Surroundings, arm: Arm, intervention: Option<InterventionDigest>, handed: Text, other: Text)
    ensures var e := RunOf(w, arm, intervention, handed, other);
      && (forall a, x :: a in e.artifacts ==> (x in a.consumers <==> HasRead(e.readLog, (a.id, x))))
      && (forall c, entry :: c in e.contexts && entry in c.entries && entry.kind.FromArtifact? ==>
           HasRead(e.readLog, (entry.ref, c.callId)))
  {
    var e := RunOf(w, arm, intervention, handed, other);
    forall key ensures HasRead(e.readLog, key) <==> key == (FIRST, FIRST) || key == (SECOND, SECOND) {
      RunHasReads(w, arm, intervention, handed, other, key);
    }
  }

  lemma DeliveriesAreOk(w: Surroundings, arm: Arm, intervention: Option<InterventionDigest>, handed: Text, other: Text, d: Delivery)
    requires arm.NeutralArm? <==> intervention.Some?
    requires handed == (if arm.IntactArm? then ORIGINAL else REPLACEMENT)
    requires d in RunOf(w, arm, intervention, handed, other).deliveries
    ensures var e := RunOf(w, arm, intervention, handed, other);
      DeliveryOk(e, d) && HasDirectRead(e.readLog, DeliveryKey(d))
  {
    var e := RunOf(w, arm, intervention, handed, other);
    EitherOf(e.deliveries, d);
    DeliveryIsOk(w, arm, intervention, handed, other, if d == e.deliveries[0] then 0 else 1);
    RunHasReads(w, arm, intervention, handed, other, DeliveryKey(d));
  }

  lemma ReadsAreOk(w: Surroundings, arm: Arm, intervention: Option<InterventionDigest>, handed: Text, other: Text, r: Read)
    requires arm.NeutralArm? <==> intervention.Some?
    requires r in RunOf(w, arm, intervention, handed, other).readLog
    ensures ReadOk(RunOf(w, arm, intervention, handed, other), r)
  {
    var e := RunOf(w, arm, intervention, handed, other);
    EitherOf(e.readLog, r);
    ReadIsOk(w, arm, intervention, handed, other, if r == e.readLog[0] then 0 else 1);
  }

  lemma RunParts(w: Surroundings, arm: Arm, intervention: Option<InterventionDigest>, handed: Text, other: Text)
    requires arm.NeutralArm? <==> intervention.Some?
    requires handed == (if arm.IntactArm? then ORIGINAL else REPLACEMENT)
    ensures var e := RunOf(w, arm, intervention, handed, other);
      && (forall d :: d in e.deliveries ==> DeliveryOk(e, d) && HasDirectRead(e.readLog, DeliveryKey(d)))
      && (forall r :: r in e.readLog ==> ReadOk(e, r))
  {
    var e := RunOf(w, arm, intervention, handed, other);
    forall d | d in e.deliveries ensures DeliveryOk(e, d) && HasDirectRead(e.readLog, DeliveryKey(d)) {
      DeliveriesAreOk(w, arm, intervention, handed, other, d);
    }
    forall r | r in e.readLog ensures ReadOk(e, r) {
      ReadsAreOk(w, arm, intervention, handed, other, r);
    }
  }

  lemma RunKeysDiffer(w: Surroundings, arm: Arm, intervention: Option<InterventionDigest>, handed: Text, other: Text)
    ensures var e := RunOf(w, arm, intervention, handed, other);
      && e.arm == arm
      && forall i, j :: 0 <= i < j < |e.deliveries| ==> DeliveryKey(e.deliveries[i]) != DeliveryKey(e.deliveries[j])
  {
  }

  lemma RunIsValid(w: Surroundings, arm: Arm, intervention: Option<InterventionDigest>, handed: Text, other: Text)
    requires arm.NeutralArm? <==> intervention.Some?
    requires handed == (if arm.IntactArm? then ORIGINAL else REPLACEMENT)
    ensures ValidFlow(RunOf(w, arm, intervention, handed, other))
  {
    RunParts(w, arm, intervention, handed, other);
    RunKeysDiffer(w, arm, intervention, handed, other);
    RunReplacements(w, arm, intervention, handed, other);
    RunConsequences(w, arm, intervention, handed, other);
    FlowOfParts(RunOf(w, arm, intervention, handed, other));
  }

  lemma PairIsAccepted(w: Surroundings, x: Text, y: Text)
    ensures WellFormed(IntactRun(w, x)) && ValidFlow(IntactRun(w, x))
    ensures WellFormed(NeutralRun(w, x, y)) && ValidFlow(NeutralRun(w, x, y))
  {
    RunIsWellFormed(w, IntactArm, None, ORIGINAL, x);
    RunIsValid(w, IntactArm, None, ORIGINAL, x);
    RunIsWellFormed(w, NeutralArm, Some(InterventionDigest(BoundIntervention(w, x))), REPLACEMENT, y);
    RunIsValid(w, NeutralArm, Some(InterventionDigest(BoundIntervention(w, x))), REPLACEMENT, y);
  }

  lemma RunRecordsHold(w: Surroundings, arm: Arm, intervention: Option<InterventionDigest>, handed: Text, other: Text)
    requires Encodable(handed) && Encodable(other)
    ensures RecordsHold(RunOf(w, arm, intervention, handed, other))
  {
    var e := RunOf(w, arm, intervention, handed, other);
    assert Encodable(ORIGINAL);
    forall i | 0 <= i < |e.calls| ensures MadeFromContext(e, e.calls[i]) {
      assert e.contexts[i] in e.contexts && CallOf(e.contexts[i]) == e.calls[i].callId;
    }
    assert e.calls[..1] == [e.calls[0]] && e.calls[..1][..0] == [];
    assert SentCalls(e.calls[..1]) == 1;
  }

  /** The intervention is the one the builder binds, one unit being priced for each character. */
  lemma PairIsBuilt(w: Surroundings, x: Text)
    requires WellFormed(IntactRun(w, x))
    ensures BuildIntervention(IntactRun(w, x), FIRST, FIRST, REPLACEMENT, (t: Text) => |t|, (t: Text) => true)
      == Ok(BoundIntervention(w, x))
  {
    var e := IntactRun(w, x);
    assert FirstArtifact(e, FIRST) == Some(e.artifacts[0]);
    assert FirstDelivery(e, (FIRST, FIRST)) == Some(e.deliveries[0]);
    assert FirstRead(e, (FIRST, FIRST)) == Some(e.readLog[0]);
  }

  lemma PairMatches(w: Surroundings, x: Text, y: Text)
    ensures SameEnvelope(IntactRun(w, x), NeutralRun(w, x, y), BoundIntervention(w, x))
    ensures HandsOver(NeutralRun(w, x, y), BoundIntervention(w, x))
  {
    assert ReplacedDelivery(NeutralRun(w, x, y), NeutralRun(w, x, y).deliveries[0]);
  }

  lemma PairTables(w: Surroundings, x: Text, y: Text)
    ensures TablesAgree(IntactRun(w, x), NeutralRun(w, x, y), (FIRST, FIRST)) <==> x == y
  {
    var key: Key := (SECOND, SECOND);
    forall e: Evidence, k: Key, a | e in {IntactRun(w, x), NeutralRun(w, x, y)} && a in e.artifacts && k != (FIRST, FIRST) && Lists(a, k)
      ensures a == e.artifacts[1] && k == key
    {
      EitherOf(e.artifacts, a);
    }
    var a, b := IntactRun(w, x).artifacts[1], NeutralRun(w, x, y).artifacts[1];
    assert a in IntactRun(w, x).artifacts && b in NeutralRun(w, x, y).artifacts && Lists(a, key) && Lists(b, key);
    assert a.observed == b.observed <==> x == y;
  }

  lemma PairRecordsHold(w: Surroundings, x: Text, y: Text)
    ensures Encodable(x) && Encodable(y) ==> RecordsHold(IntactRun(w, x)) && RecordsHold(NeutralRun(w, x, y))
  {
    if Encodable(x) && Encodable(y) {
      RunRecordsHold(w, IntactArm, None, ORIGINAL, x);
      RunRecordsHold(w, NeutralArm, Some(InterventionDigest(BoundIntervention(w, x))), REPLACEMENT, y);
    }
  }

  lemma PairJoins(w: Surroundings, x: Text, y: Text)
    ensures JoinRuns(IntactRun(w, x), NeutralRun(w, x, y), BoundIntervention(w, x)).Ok?
  {
    PairIsAccepted(w, x, y);
    PairMatches(w, x, y);
    JoinsExactly(IntactRun(w, x), NeutralRun(w, x, y), BoundIntervention(w, x));
  }

  lemma PairAgrees(w: Surroundings, x: Text, y: Text)
    ensures AgreeOutside(IntactRun(w, x), NeutralRun(w, x, y), (FIRST, FIRST)) <==> x == y
  {
    PairIsAccepted(w, x, y);
    PairJoins(w, x, y);
    PairTables(w, x, y);
    AgreeOutsideExactly(IntactRun(w, x), NeutralRun(w, x, y), BoundIntervention(w, x));
  }

  /** Runs that join, wherever they are made and whatever text the second artifact holds in each: they
      agree outside the bound delivery exactly when it holds the same. */
  lemma JoinedPair(w: Surroundings, x: Text, y: Text)
    ensures WellFormed(IntactRun(w, x)) && ValidFlow(IntactRun(w, x))
    ensures WellFormed(NeutralRun(w, x, y)) && ValidFlow(NeutralRun(w, x, y))
    ensures Encodable(x) && Encodable(y) ==> RecordsHold(IntactRun(w, x)) && RecordsHold(NeutralRun(w, x, y))
    ensures BuildIntervention(IntactRun(w, x), FIRST, FIRST, REPLACEMENT, (t: Text) => |t|, (t: Text) => true)
      == Ok(BoundIntervention(w, x))
    ensures JoinRuns(IntactRun(w, x), NeutralRun(w, x, y), BoundIntervention(w, x)).Ok?
    ensures AgreeOutside(IntactRun(w, x), NeutralRun(w, x, y), (FIRST, FIRST)) <==> x == y
  {
    PairIsAccepted(w, x, y);
    PairRecordsHold(w, x, y);
    PairIsBuilt(w, x);
    PairJoins(w, x, y);
    PairAgrees(w, x, y);
  }
}
