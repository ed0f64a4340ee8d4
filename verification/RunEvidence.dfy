/**
 The evidence of one run: which artifacts were produced, where they were delivered, and which call
 contexts they were read in. Accepted evidence traces every value read back to its producer, with
 one marked exception in a neutral run.
 */
module RunEvidence {
  import opened Wrappers
  import opened Scalars
  import opened Collections

  datatype Json = TextValue(text: Text) | OtherValue(canonical: Bytes)

  datatype Observed = Observed(value: Json)

  datatype SourceKind = Instruction | TaskInput | Workspace | FromArtifact | PriorOutput | Session

  datatype Entry = Entry(id: Text, kind: SourceKind, ref: Text, observed: Observed)

  datatype Context = Context(id: Text, callId: Text, actor: Text, entries: seq<Entry>)

  datatype Artifact = Artifact(
    id: Text, channel: Text, producer: Text, isText: bool, observed: Observed, payloadBytes: nat, consumers: seq<Text>)

  datatype DeliveryKind = Intact | NeutralReplacement

  datatype ReadKind = Direct | Retained

  datatype Arm = IntactArm | NeutralArm

  datatype Delivery = Delivery(
    id: Text, artifact: Text, channel: Text, producer: Text, consumer: Text, kind: DeliveryKind,
    intervention: Option<InterventionDigest>, observed: Observed, payloadBytes: nat)

  datatype Read = Read(
    id: Text, artifact: Text, channel: Text, consumer: Text, context: Text, entry: Text, kind: ReadKind,
    delivery: Option<Text>, observed: Observed, payloadBytes: nat)

  /** What a provider call looks like from outside, and what a route does. */
  datatype CallShape = CallShape(
    callId: Text, actor: Text, attempt: nat, deployment: Text, provider: Text, model: Text, status: Text, sent: bool)
  datatype RouteShape = RouteShape(kind: Text, from: Text, to: Text, stage: Text, trigger: Text)
  datatype Cost = Cost(
    modelCalls: nat, inputTokens: nat, cachedTokens: nat, cacheWriteTokens: nat, toolCalls: nat, retries: nat)

  datatype Evidence = Evidence(
    identity: seq<Text>, pairKey: Text, protocol: Text, arm: Arm, intervention: Option<InterventionDigest>,
    contexts: seq<Context>, artifacts: seq<Artifact>, deliveries: seq<Delivery>, readLog: seq<Read>,
    calls: seq<CallShape>, routes: seq<RouteShape>, cost: Cost)

  /** One delivery of an intact run, with the neutral text that is to replace it. */
  datatype Intervention = Intervention(
    source: Evidence, pairKey: Text, protocol: Text, artifact: Text, channel: Text, producer: Text,
    consumer: Text, delivery: Text, read: Text, context: Text, entry: Text, original: Observed, neutral: Observed,
    originalUnits: nat, neutralUnits: nat)

  /** A digest is known by what it digests; the source run's digest is the run itself. */
  datatype InterventionDigest = InterventionDigest(intervention: Intervention)

  type Key = (Text, Text)

  // What each record promises by itself

  ghost predicate WellFormed(e: Evidence) {
    && (e.arm.NeutralArm? <==> e.intervention.Some?)
    && (forall i, j :: 0 <= i < j < |e.contexts| ==> e.contexts[i].id != e.contexts[j].id)
    && (forall i, j :: 0 <= i < j < |e.artifacts| ==> e.artifacts[i].id != e.artifacts[j].id)
    && (forall i, j :: 0 <= i < j < |e.deliveries| ==> e.deliveries[i].id != e.deliveries[j].id)
    && (forall i :: 0 <= i < |e.artifacts| ==> Ascends(e.artifacts[i].consumers))
    && (forall i :: 0 <= i < |e.artifacts| ==> e.artifacts[i].isText ==> e.artifacts[i].observed.value.TextValue?)
    && (forall i :: 0 <= i < |e.contexts| ==> forall j, k :: 0 <= j < k < |e.contexts[i].entries| ==>
      e.contexts[i].entries[j].id != e.contexts[i].entries[k].id)
    && (forall i :: 0 <= i < |e.deliveries| ==> (e.deliveries[i].kind.NeutralReplacement? <==> e.deliveries[i].intervention.Some?))
    && (forall i :: 0 <= i < |e.readLog| ==> (e.readLog[i].kind.Direct? <==> e.readLog[i].delivery.Some?))
  }

  /** A text is encodable, and its size is that of its UTF-8 bytes. */
  predicate Sized(o: Observed, payloadBytes: nat) {
    o.value.TextValue? ==> Encodable(o.value.text) && payloadBytes == |Utf8(o.value.text)|
  }

  /** The call was made from a recorded context of its own, on the run's deployment. */
  ghost predicate MadeFromContext(e: Evidence, call: CallShape) {
    && (exists c :: c in e.contexts && CallOf(c) == call.callId)
    && |e.identity| >= 3 && e.identity[|e.identity| - 3..] == [call.deployment, call.provider, call.model]
  }

  function SentCalls(calls: seq<CallShape>): nat {
    if calls == [] then 0 else SentCalls(calls[..|calls| - 1]) + if calls[|calls| - 1].sent then 1 else 0
  }

  /** What the records promise besides, which the artifact flow does not turn on. */
  ghost predicate RecordsHold(e: Evidence) {
    && (forall i :: 0 <= i < |e.contexts| ==> e.contexts[i].entries != [])
    && (forall i :: 0 <= i < |e.artifacts| ==> e.artifacts[i].isText ==> Sized(e.artifacts[i].observed, e.artifacts[i].payloadBytes))
    && (forall i :: 0 <= i < |e.deliveries| ==> Sized(e.deliveries[i].observed, e.deliveries[i].payloadBytes))
    && (forall i :: 0 <= i < |e.readLog| ==> Sized(e.readLog[i].observed, e.readLog[i].payloadBytes))
    && (forall i :: 0 <= i < |e.calls| ==> MadeFromContext(e, e.calls[i]))
    && e.cost.modelCalls == SentCalls(e.calls)
  }

  // The declarative flow

  function DeliveryKey(d: Delivery): Key {
    (d.artifact, d.consumer)
  }

  function ReadKey(r: Read): Key {
    (r.artifact, r.consumer)
  }

  predicate Names(a: Artifact, id: Text) {
    a.id == id
  }

  predicate FlowsFrom(e: Evidence, d: Delivery, a: Artifact) {
    && a.id == d.artifact && a.channel == d.channel && a.producer == d.producer
    && (match d.kind
        case Intact => a.observed == d.observed
        case NeutralReplacement => e.arm.NeutralArm? && d.intervention == e.intervention && a.observed != d.observed)
  }

  ghost predicate DeliveryOk(e: Evidence, d: Delivery) {
    exists a :: a in e.artifacts && FlowsFrom(e, d, a)
  }

  predicate NamesEntry(r: Read, c: Context, entry: Entry) {
    && c.id == r.context && c.callId == r.consumer
    && entry.id == r.entry && entry.kind.FromArtifact? && entry.ref == r.artifact && entry.observed == r.observed
  }

  ghost predicate InContext(e: Evidence, r: Read) {
    exists c, entry :: c in e.contexts && entry in c.entries && NamesEntry(r, c, entry)
  }

  predicate ReadsDelivery(r: Read, d: Delivery) {
    && DeliveryKey(d) == ReadKey(r) && r.delivery == Some(d.id)
    && r.channel == d.channel && r.observed == d.observed && r.payloadBytes == d.payloadBytes
  }

  function CallOf(c: Context): Text {
    c.callId
  }

  /** `{context.call_id: context for context in contexts}`: the last context recorded for a call. */
  function ContextsByCall(contexts: seq<Context>): map<Text, Context> {
    IndexBy(CallOf, contexts)
  }

  predicate DeliveredToActor(e: Evidence, d: Delivery, artifact: Text, actor: Text) {
    && d.artifact == artifact && d.consumer in ContextsByCall(e.contexts)
    && ContextsByCall(e.contexts)[d.consumer].actor == actor
  }

  ghost predicate RetainedOk(e: Evidence, r: Read) {
    && (forall d :: d in e.deliveries ==> DeliveryKey(d) != ReadKey(r))
    && (exists c, d :: c in e.contexts && c.id == r.context && d in e.deliveries && DeliveredToActor(e, d, r.artifact, c.actor))
    && exists a :: a in e.artifacts && a.id == r.artifact && a.channel == r.channel && a.observed == r.observed && a.payloadBytes == r.payloadBytes
  }

  ghost predicate ReadOk(e: Evidence, r: Read) {
    && (exists a :: a in e.artifacts && Names(a, r.artifact))
    && (if r.kind.Direct? then exists d :: d in e.deliveries && ReadsDelivery(r, d) else RetainedOk(e, r))
    && InContext(e, r)
  }

  function Replacements(deliveries: seq<Delivery>): nat {
    if deliveries == [] then 0
    else Replacements(deliveries[..|deliveries| - 1]) + if deliveries[|deliveries| - 1].kind.NeutralReplacement? then 1 else 0
  }

  ghost predicate HasDirectRead(readLog: seq<Read>, key: Key) {
    exists r :: r in readLog && r.kind.Direct? && ReadKey(r) == key
  }

  ghost predicate HasRead(readLog: seq<Read>, key: Key) {
    exists r :: r in readLog && ReadKey(r) == key
  }

  /** What the artifact flow of accepted evidence looks like. */
  ghost predicate ValidFlow(e: Evidence) {
    && (forall d :: d in e.deliveries ==> DeliveryOk(e, d))
    && (forall i, j :: 0 <= i < j < |e.deliveries| ==> DeliveryKey(e.deliveries[i]) != DeliveryKey(e.deliveries[j]))
    && Replacements(e.deliveries) == (if e.arm.NeutralArm? then 1 else 0)
    && (forall r :: r in e.readLog ==> ReadOk(e, r))
    && (forall d :: d in e.deliveries ==> HasDirectRead(e.readLog, DeliveryKey(d)))
    && (forall a, x :: a in e.artifacts ==> (x in a.consumers <==> HasRead(e.readLog, (a.id, x))))
    && (forall c, entry :: c in e.contexts && entry in c.entries && entry.kind.FromArtifact? ==>
         HasRead(e.readLog, (entry.ref, c.callId)))
  }

  // Provenance

  /** The value the producer of an artifact recorded. */
  predicate Produced(e: Evidence, artifact: Text, value: Observed) {
    exists a :: a in e.artifacts && a.id == artifact && a.observed == value
  }

  ghost predicate ReplacedDelivery(e: Evidence, d: Delivery) {
    d in e.deliveries && d.kind.NeutralReplacement?
  }

  lemma {:induction false} NoReplacement(deliveries: seq<Delivery>)
    ensures Replacements(deliveries) == 0 <==> forall d :: d in deliveries ==> d.kind.Intact?
  {
    if deliveries != [] {
      NoReplacement(deliveries[..|deliveries| - 1]);
      assert deliveries == deliveries[..|deliveries| - 1] + [deliveries[|deliveries| - 1]];
    }
  }

  lemma {:induction false} OneReplacement(deliveries: seq<Delivery>) returns (k: nat)
    requires Replacements(deliveries) == 1
    ensures k < |deliveries| && deliveries[k].kind.NeutralReplacement?
    ensures forall i :: 0 <= i < |deliveries| && deliveries[i].kind.NeutralReplacement? ==> i == k
  {
    var n := |deliveries| - 1;
    if deliveries[n].kind.NeutralReplacement? {
      k := n;
      NoReplacement(deliveries[..n]);
      assert forall i :: 0 <= i < n ==> deliveries[i] == deliveries[..n][i];
    } else {
      k := OneReplacement(deliveries[..n]);
      assert forall i :: 0 <= i < n ==> deliveries[i] == deliveries[..n][i];
    }
  }

  /** Every read's value is the producer's, unless it directly reads a replaced delivery. */
  lemma ReadIsProducedOrReplaced(e: Evidence, r: Read)
    requires WellFormed(e) && ValidFlow(e) && r in e.readLog
    ensures InContext(e, r)
    ensures Produced(e, r.artifact, r.observed)
         || (r.kind.Direct? && exists d :: ReplacedDelivery(e, d) && DeliveryKey(d) == ReadKey(r) && d.observed == r.observed)
  {
    assert ReadOk(e, r);
    if r.kind.Direct? {
      var d :| d in e.deliveries && ReadsDelivery(r, d);
      assert DeliveryOk(e, d);
      var a :| a in e.artifacts && FlowsFrom(e, d, a);
      if d.kind.NeutralReplacement? {
        assert ReplacedDelivery(e, d);
      }
    }
  }

  lemma UniqueProducedValue(e: Evidence, artifact: Text, x: Observed, y: Observed)
    requires WellFormed(e) && Produced(e, artifact, x) && Produced(e, artifact, y)
    ensures x == y
  {
  }

  /** In an intact run every read, and the context entry it names, carries the producer's value. */
  lemma IntactReadsAreProduced(e: Evidence, r: Read)
    requires WellFormed(e) && ValidFlow(e) && e.arm.IntactArm? && r in e.readLog
    ensures InContext(e, r) && Produced(e, r.artifact, r.observed)
  {
    ReadIsProducedOrReplaced(e, r);
    NoReplacement(e.deliveries);
  }

  /**
   A neutral run has one replaced delivery. It is read at least once, every read of it is direct
   and carries the replacement, which is not the producer's value; all other reads carry theirs.
   */
  lemma NeutralRunHasOneException(e: Evidence) returns (d: Delivery)
    requires WellFormed(e) && ValidFlow(e) && e.arm.NeutralArm?
    ensures ReplacedDelivery(e, d) && d.intervention == e.intervention
    ensures HasDirectRead(e.readLog, DeliveryKey(d)) && !Produced(e, d.artifact, d.observed)
    ensures forall r :: r in e.readLog ==> InContext(e, r)
    ensures forall r :: r in e.readLog ==>
      if ReadKey(r) == DeliveryKey(d) then r.kind.Direct? && r.observed == d.observed
      else Produced(e, r.artifact, r.observed)
  {
    var k := OneReplacement(e.deliveries);
    d := e.deliveries[k];
    assert DeliveryOk(e, d);
    var a :| a in e.artifacts && FlowsFrom(e, d, a);
    if Produced(e, d.artifact, d.observed) {
      assert Produced(e, d.artifact, a.observed);
      UniqueProducedValue(e, d.artifact, d.observed, a.observed);
    }
    forall r | r in e.readLog
      ensures InContext(e, r)
      ensures if ReadKey(r) == DeliveryKey(d) then r.kind.Direct? && r.observed == d.observed
        else Produced(e, r.artifact, r.observed)
    {
      ReadIsProducedOrReplaced(e, r);
      ReadOfReplaced(e, r, k);
    }
  }

  lemma RetainedReadsElsewhere(e: Evidence, r: Read, d: Delivery)
    requires ReadOk(e, r) && r.kind.Retained? && d in e.deliveries
    ensures DeliveryKey(d) != ReadKey(r)
  {
  }

  lemma SameKeySameDelivery(e: Evidence, c: Delivery, d: Delivery)
    requires ValidFlow(e) && c in e.deliveries && d in e.deliveries && DeliveryKey(c) == DeliveryKey(d)
    ensures c == d
  {
    var i :| 0 <= i < |e.deliveries| && e.deliveries[i] == c;
    var j :| 0 <= j < |e.deliveries| && e.deliveries[j] == d;
  }

  lemma DirectReadCarriesDelivery(e: Evidence, r: Read, d: Delivery)
    requires ValidFlow(e) && r in e.readLog && r.kind.Direct? && d in e.deliveries && DeliveryKey(d) == ReadKey(r)
    ensures r.observed == d.observed
  {
    assert ReadOk(e, r);
    var c :| c in e.deliveries && ReadsDelivery(r, c);
    SameKeySameDelivery(e, c, d);
  }

  lemma ReadOfReplaced(e: Evidence, r: Read, k: nat)
    requires WellFormed(e) && ValidFlow(e) && r in e.readLog && k < |e.deliveries|
    requires forall i :: 0 <= i < |e.deliveries| && e.deliveries[i].kind.NeutralReplacement? ==> i == k
    ensures if ReadKey(r) == DeliveryKey(e.deliveries[k]) then r.kind.Direct? && r.observed == e.deliveries[k].observed
      else Produced(e, r.artifact, r.observed)
  {
    ReadIsProducedOrReplaced(e, r);
    if ReadKey(r) == DeliveryKey(e.deliveries[k]) {
      assert ReadOk(e, r);
      if r.kind.Retained? {
        RetainedReadsElsewhere(e, r, e.deliveries[k]);
      } else {
        DirectReadCarriesDelivery(e, r, e.deliveries[k]);
      }
    }
  }
}
