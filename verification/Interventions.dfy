/**
 Neutral-artifact interventions: a length-matched stand-in for one delivered text, and the join
 that pairs an intact run with its neutral counterpart.
 */
module Interventions {
  import opened Wrappers
  import opened Scalars
  import opened RunEvidence
  import Gate0Plan

  datatype InterventionError =
    | WrongArm | UnknownArtifact | NotText | NoRoute | RouteAltered | NotPublic | LengthDiffers | NegativeUnits | UnitsDiffer
    | SameContent | WrongSource | WrongIntervention | IdentityMismatch | CallsDiffer | RoutesDiffer | CostDiffers
    | ReplacementMissing | NoCalls | EmptyArtifact | Unencodable | TooSmall | NotMatched

  /** The canonical JSON size of an observed value. */
  function SerializedBytes(o: Observed): nat {
    match o.value
    case TextValue(t) => 2 + Gate0Plan.EscapedBytes(t)
    case OtherValue(canonical) => |canonical|
  }

  // The neutral text

  function LengthMatchedNeutralText(original: Text): Result<Text, InterventionError> {
    if !Encodable(original) then Err(Unencodable)
    else if original == [] then Err(EmptyArtifact)
    else
      var size := SerializedBytes(Observed(TextValue(original)));
      if size <= 2 then Err(TooSmall)
      else
        var fill := if Gate0Plan.AllN(original) then Gate0Plan.LETTER_Z else Gate0Plan.LETTER_N;
        var neutral := seq(size - 2, i => fill);
        if SerializedBytes(Observed(TextValue(neutral))) != size then Err(NotMatched) else Ok(neutral)
  }

  /** Every non-empty encodable text has a neutral one: different, and of exactly its serialized length. */
  lemma NeutralTextMatches(original: Text)
    ensures LengthMatchedNeutralText(original).Ok? <==> original != [] && Encodable(original)
    ensures original != [] && Encodable(original) ==>
      && LengthMatchedNeutralText(original).value != original
      && SerializedBytes(Observed(TextValue(LengthMatchedNeutralText(original).value)))
         == SerializedBytes(Observed(TextValue(original)))
  {
    if original != [] {
      Gate0Plan.BytesCoverText(original);
      var fill := if Gate0Plan.AllN(original) then Gate0Plan.LETTER_Z else Gate0Plan.LETTER_N;
      var neutral := seq(Gate0Plan.EscapedBytes(original), i => fill);
      Gate0Plan.PlainBytes(neutral);
      assert neutral[0] == fill;
      if !Gate0Plan.AllN(original) {
        var i :| 0 <= i < |original| && original[i] != Gate0Plan.LETTER_N;
        assert i < |neutral| && neutral[i] == fill;
      }
    }
  }

  // Building an intervention

  function First<T>(matches: T -> bool, xs: seq<T>): (r: Option<T>)
    ensures r.Some? ==> r.value in xs && matches(r.value)
    ensures r.None? ==> forall x :: x in xs ==> !matches(x)
  {
    if xs == [] then None else if matches(xs[0]) then Some(xs[0]) else First(matches, xs[1..])
  }

  function FirstArtifact(e: Evidence, id: Text): Option<Artifact> {
    First((a: Artifact) => a.id == id, e.artifacts)
  }

  function FirstDelivery(e: Evidence, key: Key): Option<Delivery> {
    First((d: Delivery) => DeliveryKey(d) == key, e.deliveries)
  }

  function FirstRead(e: Evidence, key: Key): Option<Read> {
    First((r: Read) => ReadKey(r) == key, e.readLog)
  }

  /** Binds a neutral text to one delivered and read route of an intact run. */
  function BuildIntervention(source: Evidence, artifactId: Text, consumer: Text, neutral: Text, measure: Text -> int, isPublic: Text -> bool)
    : Result<Intervention, InterventionError>
    requires WellFormed(source)
  {
    if !source.arm.IntactArm? then Err(WrongArm)
    else
      var artifact := FirstArtifact(source, artifactId);
      if artifact.None? then Err(UnknownArtifact)
      else if !artifact.value.isText then Err(NotText)
      else
        var delivery, read := FirstDelivery(source, (artifactId, consumer)), FirstRead(source, (artifactId, consumer));
        if delivery.None? || read.None? || !delivery.value.kind.Intact? then Err(NoRoute)
        else if delivery.value.observed != artifact.value.observed || read.value.observed != artifact.value.observed
        then Err(RouteAltered)
        else
          Bind(source, artifact.value, delivery.value, read.value, consumer, neutral, measure, isPublic)
  }

  function Bind(
      source: Evidence, artifact: Artifact, delivery: Delivery, read: Read, consumer: Text, neutral: Text,
      measure: Text -> int, isPublic: Text -> bool)
    : Result<Intervention, InterventionError>
    requires artifact.observed.value.TextValue?
  {
    var replacement := Observed(TextValue(neutral));
    var originalUnits, neutralUnits := measure(artifact.observed.value.text), measure(neutral);
    if !isPublic(neutral) then Err(NotPublic)
    else if !Encodable(neutral) then Err(Unencodable)
    else if SerializedBytes(replacement) != SerializedBytes(artifact.observed) then Err(LengthDiffers)
    else if originalUnits < 0 || neutralUnits < 0 then Err(NegativeUnits)
    else if originalUnits != neutralUnits then Err(UnitsDiffer)
    else if replacement == artifact.observed then Err(SameContent)
    else Ok(Intervention(
              source, source.pairKey, source.protocol, artifact.id, artifact.channel, artifact.producer, consumer,
              delivery.id, read.id, read.context, read.entry, artifact.observed, replacement, originalUnits, neutralUnits))
  }

  /** The artifact was delivered to the call, and the replacement is a different text that matches it. */
  ghost predicate Bindable(e: Evidence, artifact: Text, consumer: Text, neutral: Text, measure: Text -> int, isPublic: Text -> bool) {
    exists a, d :: a in e.artifacts && d in e.deliveries && Binds(a, d, artifact, consumer, neutral, measure, isPublic)
  }

  predicate Binds(a: Artifact, d: Delivery, artifact: Text, consumer: Text, neutral: Text, measure: Text -> int, isPublic: Text -> bool) {
    a.id == artifact && DeliveryKey(d) == (artifact, consumer) && Matches(a, neutral, measure, isPublic)
  }

  predicate Matches(a: Artifact, neutral: Text, measure: Text -> int, isPublic: Text -> bool) {
    && a.isText && a.observed.value.TextValue? && a.observed.value.text != neutral && isPublic(neutral) && Encodable(neutral)
    && SerializedBytes(Observed(TextValue(neutral))) == SerializedBytes(a.observed)
    && 0 <= measure(neutral) == measure(a.observed.value.text)
  }

  lemma IntactRouteIsWhole(e: Evidence, a: Artifact, d: Delivery, r: Read)
    requires WellFormed(e) && ValidFlow(e) && e.arm.IntactArm?
    requires a in e.artifacts && d in e.deliveries && a.id == d.artifact && r in e.readLog && ReadKey(r) == DeliveryKey(d)
    ensures d.kind.Intact? && d.observed == a.observed && r.observed == a.observed
  {
    NoReplacement(e.deliveries);
    assert DeliveryOk(e, d);
    var b :| b in e.artifacts && FlowsFrom(e, d, b);
    SameIdSameArtifact(e, a, b);
    assert ReadOk(e, r);
    if r.kind.Retained? {
      RetainedReadsElsewhere(e, r, d);
    } else {
      DirectReadCarriesDelivery(e, r, d);
    }
  }

  lemma SameIdSameArtifact(e: Evidence, a: Artifact, b: Artifact)
    requires WellFormed(e) && a in e.artifacts && b in e.artifacts && a.id == b.id
    ensures a == b
  {
    var i :| 0 <= i < |e.artifacts| && e.artifacts[i] == a;
    var j :| 0 <= j < |e.artifacts| && e.artifacts[j] == b;
  }

  /** If the artifact was delivered to the call, its route from producer to reader kept one value. */
  ghost predicate WholeRoute(e: Evidence, artifact: Text, consumer: Text) {
    var key := (artifact, consumer);
    FirstDelivery(e, key).Some? ==>
      && FirstArtifact(e, artifact).Some? && FirstRead(e, key).Some? && FirstDelivery(e, key).value.kind.Intact?
      && FirstDelivery(e, key).value.observed == FirstArtifact(e, artifact).value.observed
      && FirstRead(e, key).value.observed == FirstArtifact(e, artifact).value.observed
  }

  /** In an accepted intact run every delivered artifact has its route: the build turns on the text alone. */
  lemma DeliveredArtifactHasRoute(e: Evidence, artifact: Text, consumer: Text)
    requires WellFormed(e) && ValidFlow(e) && e.arm.IntactArm?
    ensures WholeRoute(e, artifact, consumer)
  {
    var delivery := FirstDelivery(e, (artifact, consumer));
    if delivery.Some? {
      var d := delivery.value;
      assert DeliveryOk(e, d);
      var b :| b in e.artifacts && FlowsFrom(e, d, b);
      assert b.id == artifact;
      assert HasDirectRead(e.readLog, DeliveryKey(d));
      var r :| r in e.readLog && r.kind.Direct? && ReadKey(r) == DeliveryKey(d);
      IntactRouteIsWhole(e, FirstArtifact(e, artifact).value, d, FirstRead(e, (artifact, consumer)).value);
    }
  }

  lemma BindsExactly(
      source: Evidence, a: Artifact, d: Delivery, r: Read, consumer: Text, neutral: Text, measure: Text -> int, isPublic: Text -> bool)
    requires a.isText && a.observed.value.TextValue?
    ensures Bind(source, a, d, r, consumer, neutral, measure, isPublic).Ok? <==> Matches(a, neutral, measure, isPublic)
  {
  }

  lemma TextArtifactHoldsText(e: Evidence, a: Artifact)
    requires WellFormed(e) && a in e.artifacts && a.isText
    ensures a.observed.value.TextValue?
  {
  }

  lemma BuildThroughBind(e: Evidence, artifact: Text, consumer: Text, neutral: Text, measure: Text -> int, isPublic: Text -> bool)
    requires WellFormed(e) && e.arm.IntactArm? && WholeRoute(e, artifact, consumer)
    ensures BuildIntervention(e, artifact, consumer, neutral, measure, isPublic).Ok? <==>
      && FirstDelivery(e, (artifact, consumer)).Some? && FirstArtifact(e, artifact).Some?
      && Matches(FirstArtifact(e, artifact).value, neutral, measure, isPublic)
  {
    var a, d, r := FirstArtifact(e, artifact), FirstDelivery(e, (artifact, consumer)), FirstRead(e, (artifact, consumer));
    if a.Some? && d.Some? && a.value.isText {
      TextArtifactHoldsText(e, a.value);
      BindsExactly(e, a.value, d.value, r.value, consumer, neutral, measure, isPublic);
    }
  }

  lemma FirstsAreTheOnes(e: Evidence, a: Artifact, d: Delivery)
    requires WellFormed(e) && a in e.artifacts && d in e.deliveries && d.artifact == a.id
    ensures FirstArtifact(e, a.id) == Some(a) && FirstDelivery(e, DeliveryKey(d)).Some?
  {
    SameIdSameArtifact(e, a, FirstArtifact(e, a.id).value);
  }

  /** From an accepted intact run the build succeeds exactly for a delivered text and a matching different one. */
  lemma BuildsExactly(e: Evidence, artifact: Text, consumer: Text, neutral: Text, measure: Text -> int, isPublic: Text -> bool)
    requires WellFormed(e) && ValidFlow(e) && e.arm.IntactArm?
    ensures BuildIntervention(e, artifact, consumer, neutral, measure, isPublic).Ok? <==> Bindable(e, artifact, consumer, neutral, measure, isPublic)
  {
    DeliveredArtifactHasRoute(e, artifact, consumer);
    BuildThroughBind(e, artifact, consumer, neutral, measure, isPublic);
    BindableExactly(e, artifact, consumer, neutral, measure, isPublic);
  }

  lemma BindableExactly(e: Evidence, artifact: Text, consumer: Text, neutral: Text, measure: Text -> int, isPublic: Text -> bool)
    requires WellFormed(e)
    ensures Bindable(e, artifact, consumer, neutral, measure, isPublic) <==>
      && FirstDelivery(e, (artifact, consumer)).Some? && FirstArtifact(e, artifact).Some?
      && Matches(FirstArtifact(e, artifact).value, neutral, measure, isPublic)
  {
    if Bindable(e, artifact, consumer, neutral, measure, isPublic) {
      var a, d :| a in e.artifacts && d in e.deliveries && Binds(a, d, artifact, consumer, neutral, measure, isPublic);
      FirstsAreTheOnes(e, a, d);
    }
    if FirstDelivery(e, (artifact, consumer)).Some? && FirstArtifact(e, artifact).Some?
       && Matches(FirstArtifact(e, artifact).value, neutral, measure, isPublic) {
      assert Binds(FirstArtifact(e, artifact).value, FirstDelivery(e, (artifact, consumer)).value,
                   artifact, consumer, neutral, measure, isPublic);
    }
  }

  /** A built intervention replaces what the producer recorded by a different text of its size. */
  lemma BuiltInterventionIsMatched(e: Evidence, artifact: Text, consumer: Text, neutral: Text, measure: Text -> int, isPublic: Text -> bool)
    requires WellFormed(e) && BuildIntervention(e, artifact, consumer, neutral, measure, isPublic).Ok?
    ensures var iv := BuildIntervention(e, artifact, consumer, neutral, measure, isPublic).value;
      && iv.source == e && iv.artifact == artifact && iv.consumer == consumer
      && Produced(e, artifact, iv.original) && iv.neutral != iv.original
      && SerializedBytes(iv.neutral) == SerializedBytes(iv.original) && iv.originalUnits == iv.neutralUnits
  {
  }

  // Joining the two runs

  datatype MatchedPair = MatchedPair(pairKey: Text, protocol: Text, intervention: InterventionDigest, intact: Evidence, neutral: Evidence)

  /** The pair record counts its provider calls, and refuses to be made for none. */
  function JoinRuns(intact: Evidence, neutral: Evidence, iv: Intervention): Result<MatchedPair, InterventionError> {
    if !intact.arm.IntactArm? || !neutral.arm.NeutralArm? then Err(WrongArm)
    else if intact != iv.source then Err(WrongSource)
    else if neutral.intervention != Some(InterventionDigest(iv)) then Err(WrongIntervention)
    else if intact.identity != neutral.identity || intact.pairKey != neutral.pairKey || intact.protocol != neutral.protocol
    then Err(IdentityMismatch)
    else if intact.calls != neutral.calls then Err(CallsDiffer)
    else if intact.routes != neutral.routes then Err(RoutesDiffer)
    else if intact.cost != neutral.cost then Err(CostDiffers)
    else
      var delivery, read := FirstDelivery(neutral, (iv.artifact, iv.consumer)), FirstRead(neutral, (iv.artifact, iv.consumer));
      if delivery.None? || read.None? || !delivery.value.kind.NeutralReplacement?
         || delivery.value.intervention != Some(InterventionDigest(iv))
         || delivery.value.observed != iv.neutral || read.value.observed != iv.neutral
      then Err(ReplacementMissing)
      else if intact.calls == [] then Err(NoCalls)
      else Ok(MatchedPair(intact.pairKey, intact.protocol, InterventionDigest(iv), intact, neutral))
  }

  /** What a join says about the two arms and the bound delivery. */
  lemma JoinFacts(intact: Evidence, neutral: Evidence, iv: Intervention) returns (bound: Delivery)
    requires JoinRuns(intact, neutral, iv).Ok?
    ensures intact.arm.IntactArm? && neutral.arm.NeutralArm?
    ensures ReplacedDelivery(neutral, bound) && DeliveryKey(bound) == (iv.artifact, iv.consumer) && bound.observed == iv.neutral
  {
    bound := FirstDelivery(neutral, (iv.artifact, iv.consumer)).value;
  }

  lemma OnlyOneReplaced(deliveries: seq<Delivery>, c: Delivery, d: Delivery)
    requires Replacements(deliveries) == 1
    requires c in deliveries && c.kind.NeutralReplacement? && d in deliveries && d.kind.NeutralReplacement?
    ensures c == d
  {
    var k := OneReplacement(deliveries);
    var i :| 0 <= i < |deliveries| && deliveries[i] == c;
    var j :| 0 <= j < |deliveries| && deliveries[j] == d;
  }

  lemma NeutralRunHasOneReplacement(e: Evidence)
    requires ValidFlow(e) && e.arm.NeutralArm?
    ensures Replacements(e.deliveries) == 1
  {
  }

  /**
   In a joined pair of accepted runs every read of the neutral run carries its producer's value,
   except for the bound delivery: it is read at least once, and all its reads are direct and carry
   the bound neutral value, which its producer did not record.
   */
  lemma JoinedNeutralRunDiffersOnlyThere(intact: Evidence, neutral: Evidence, iv: Intervention)
    requires WellFormed(neutral) && ValidFlow(neutral) && JoinRuns(intact, neutral, iv).Ok?
    ensures forall r :: r in neutral.readLog ==> InContext(neutral, r)
    ensures forall r :: r in neutral.readLog ==>
      if ReadKey(r) == (iv.artifact, iv.consumer) then r.kind.Direct? && r.observed == iv.neutral
      else Produced(neutral, r.artifact, r.observed)
    ensures HasDirectRead(neutral.readLog, (iv.artifact, iv.consumer))
    ensures !Produced(neutral, iv.artifact, iv.neutral)
  {
    var bound := JoinFacts(intact, neutral, iv);
    var replaced := NeutralRunHasOneException(neutral);
    NeutralRunHasOneReplacement(neutral);
    OnlyOneReplaced(neutral.deliveries, replaced, bound);
  }

  /** In a joined pair every read of the intact run carries its producer's value. */
  lemma JoinedIntactRunIsProduced(intact: Evidence, neutral: Evidence, iv: Intervention, r: Read)
    requires WellFormed(intact) && ValidFlow(intact) && JoinRuns(intact, neutral, iv).Ok? && r in intact.readLog
    ensures InContext(intact, r) && Produced(intact, r.artifact, r.observed)
  {
    var bound := JoinFacts(intact, neutral, iv);
    IntactReadsAreProduced(intact, r);
  }

  function WithArtifact(e: Evidence, extra: Artifact): Evidence {
    e.(artifacts := e.artifacts + [extra])
  }

  ghost predicate ConsumersRead(e: Evidence, a: Artifact) {
    forall x :: x in a.consumers <==> HasRead(e.readLog, (a.id, x))
  }

  lemma FlowReadsConsumers(e: Evidence, a: Artifact)
    requires ValidFlow(e) && a in e.artifacts
    ensures ConsumersRead(e, a)
  {
  }

  lemma UnreadArtifactKeepsDelivery(e: Evidence, extra: Artifact, d: Delivery)
    requires DeliveryOk(e, d)
    ensures DeliveryOk(WithArtifact(e, extra), d)
  {
    var a :| a in e.artifacts && FlowsFrom(e, d, a);
    assert a in WithArtifact(e, extra).artifacts && FlowsFrom(WithArtifact(e, extra), d, a);
  }

  lemma FlowFromParts(e: Evidence, more: Evidence)
    requires ValidFlow(e) && more == e.(artifacts := more.artifacts)
    requires forall d :: d in more.deliveries ==> DeliveryOk(more, d)
    requires forall r :: r in more.readLog ==> ReadOk(more, r)
    requires forall a :: a in more.artifacts ==> ConsumersRead(more, a)
    ensures ValidFlow(more)
  {
  }

  lemma UnreadArtifactKeepsFlow(e: Evidence, extra: Artifact)
    requires ValidFlow(e) && extra.consumers == [] && forall a :: a in e.artifacts ==> a.id != extra.id
    ensures ValidFlow(WithArtifact(e, extra))
  {
    var more := WithArtifact(e, extra);
    forall d | d in more.deliveries ensures DeliveryOk(more, d) {
      UnreadArtifactKeepsDelivery(e, extra, d);
    }
    forall r | r in more.readLog ensures ReadOk(more, r) && r.artifact != extra.id {
      UnreadArtifactKeepsRead(e, extra, r);
    }
    forall a | a in more.artifacts ensures ConsumersRead(more, a) {
      if a in e.artifacts {
        FlowReadsConsumers(e, a);
      }
    }
    FlowFromParts(e, more);
  }

  lemma UnreadArtifactKeepsRead(e: Evidence, extra: Artifact, r: Read)
    requires ReadOk(e, r) && forall a :: a in e.artifacts ==> a.id != extra.id
    ensures ReadOk(WithArtifact(e, extra), r) && r.artifact != extra.id
  {
    var more := WithArtifact(e, extra);
    var a :| a in e.artifacts && Names(a, r.artifact);
    assert a in more.artifacts && Names(a, r.artifact);
    if r.kind.Direct? {
      var d :| d in e.deliveries && ReadsDelivery(r, d);
      assert d in more.deliveries;
    } else {
      var c, d :| c in e.contexts && c.id == r.context && d in e.deliveries && DeliveredToActor(e, d, r.artifact, c.actor);
      assert c in more.contexts && d in more.deliveries && DeliveredToActor(more, d, r.artifact, c.actor);
      var b :| b in e.artifacts && b.id == r.artifact && b.channel == r.channel && b.observed == r.observed && b.payloadBytes == r.payloadBytes;
      assert b in more.artifacts;
    }
    var c, entry :| c in e.contexts && entry in c.entries && NamesEntry(r, c, entry);
    assert c in more.contexts && NamesEntry(r, c, entry);
  }

  lemma JoinSkipsArtifacts(intact: Evidence, neutral: Evidence, iv: Intervention, extra: Artifact)
    ensures JoinRuns(intact, WithArtifact(neutral, extra), iv).Ok? <==> JoinRuns(intact, neutral, iv).Ok?
  {
  }

  lemma UnreadArtifactKeepsForm(e: Evidence, extra: Artifact)
    requires WellFormed(e) && extra.consumers == [] && (extra.isText ==> extra.observed.value.TextValue?)
    requires forall a :: a in e.artifacts ==> a.id != extra.id
    ensures WellFormed(WithArtifact(e, extra))
  {
  }

  /** A join does not compare what the two arms produced: whatever else the neutral run is made to
      produce, unread, the evidence stays acceptable and the pair still joins. */
  lemma JoinIgnoresUnreadArtifacts(intact: Evidence, neutral: Evidence, iv: Intervention, extra: Artifact)
    requires WellFormed(neutral) && ValidFlow(neutral) && JoinRuns(intact, neutral, iv).Ok?
    requires extra.consumers == [] && (extra.isText ==> extra.observed.value.TextValue?)
    requires forall a :: a in neutral.artifacts ==> a.id != extra.id
    ensures WellFormed(WithArtifact(neutral, extra)) && ValidFlow(WithArtifact(neutral, extra))
    ensures JoinRuns(intact, WithArtifact(neutral, extra), iv).Ok?
  {
    UnreadArtifactKeepsFlow(neutral, extra);
    UnreadArtifactKeepsForm(neutral, extra);
    JoinSkipsArtifacts(intact, neutral, iv, extra);
  }
}
