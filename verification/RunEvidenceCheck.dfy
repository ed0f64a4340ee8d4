/** The validator of the artifact flow, as it runs: dictionaries filled record by record. */
module RunEvidenceCheck {
  import opened Wrappers
  import opened Scalars
  import opened Collections
  import opened RunEvidence

  function ArtifactId(a: Artifact): Text {
    a.id
  }

  function ContextId(c: Context): Text {
    c.id
  }

  lemma Lookup<T>(id: T -> Text, xs: seq<T>, x: T)
    requires DistinctBy(id, xs) && x in xs
    ensures id(x) in IndexBy(id, xs) && IndexBy(id, xs)[id(x)] == x
  {
    var i :| 0 <= i < |xs| && xs[i] == x;
    IndexContent(id, xs, i);
  }

  lemma Found<T>(id: T -> Text, xs: seq<T>, k: Text)
    requires k in IndexBy(id, xs)
    ensures IndexBy(id, xs)[k] in xs && id(IndexBy(id, xs)[k]) == k
  {
    IndexDomain(id, xs, k);
  }

  lemma IdsAreDistinct(e: Evidence)
    requires WellFormed(e)
    ensures DistinctBy(ArtifactId, e.artifacts) && DistinctBy(ContextId, e.contexts)
  {
  }

  // Deliveries

  predicate DeliveryChecks(e: Evidence, artifacts: map<Text, Artifact>, d: Delivery) {
    d.artifact in artifacts && FlowsFrom(e, d, artifacts[d.artifact])
  }

  lemma DeliveryChecksExactly(e: Evidence, d: Delivery)
    requires WellFormed(e)
    ensures DeliveryChecks(e, IndexBy(ArtifactId, e.artifacts), d) <==> DeliveryOk(e, d)
  {
    IdsAreDistinct(e);
    if DeliveryOk(e, d) {
      var a :| a in e.artifacts && FlowsFrom(e, d, a);
      Lookup(ArtifactId, e.artifacts, a);
    }
    if DeliveryChecks(e, IndexBy(ArtifactId, e.artifacts), d) {
      Found(ArtifactId, e.artifacts, d.artifact);
    }
  }

  ghost predicate Indexes(deliveries: map<Key, Delivery>, list: seq<Delivery>) {
    && (forall key :: key in deliveries ==> deliveries[key] in list && DeliveryKey(deliveries[key]) == key)
    && forall d :: d in list ==> DeliveryKey(d) in deliveries && deliveries[DeliveryKey(d)] == d
  }

  ghost predicate DeliveriesOk(e: Evidence) {
    && (forall d :: d in e.deliveries ==> DeliveryOk(e, d))
    && (forall i, j :: 0 <= i < j < |e.deliveries| ==> DeliveryKey(e.deliveries[i]) != DeliveryKey(e.deliveries[j]))
    && Replacements(e.deliveries) == if e.arm.NeutralArm? then 1 else 0
  }

  /** The state of the loop over the deliveries after `list`. */
  ghost predicate DeliveredSoFar(e: Evidence, list: seq<Delivery>, deliveries: map<Key, Delivery>, neutral: nat) {
    && (forall d :: d in list ==> DeliveryOk(e, d))
    && (forall i, j :: 0 <= i < j < |list| ==> DeliveryKey(list[i]) != DeliveryKey(list[j]))
    && Indexes(deliveries, list) && neutral == Replacements(list)
  }

  lemma DeliveredStep(e: Evidence, list: seq<Delivery>, deliveries: map<Key, Delivery>, neutral: nat, d: Delivery)
    requires DeliveredSoFar(e, list, deliveries, neutral) && DeliveryOk(e, d) && DeliveryKey(d) !in deliveries
    ensures DeliveredSoFar(e, list + [d], deliveries[DeliveryKey(d) := d],
                           neutral + if d.kind.NeutralReplacement? then 1 else 0)
  {
    assert (list + [d])[..|list|] == list;
    forall i | 0 <= i < |list| ensures DeliveryKey(list[i]) != DeliveryKey(d) {
      assert list[i] in list;
    }
  }

  lemma DeliveredTwice(e: Evidence, k: nat, deliveries: map<Key, Delivery>)
    requires k < |e.deliveries| && Indexes(deliveries, e.deliveries[..k]) && DeliveryKey(e.deliveries[k]) in deliveries
    ensures !DeliveriesOk(e)
  {
    var key := DeliveryKey(e.deliveries[k]);
    var i :| 0 <= i < k && e.deliveries[..k][i] == deliveries[key];
    assert DeliveryKey(e.deliveries[i]) == DeliveryKey(e.deliveries[k]);
  }

  lemma Undelivered(e: Evidence, k: nat)
    requires k < |e.deliveries| && !DeliveryOk(e, e.deliveries[k])
    ensures !DeliveriesOk(e)
  {
  }

  lemma DeliveredAll(e: Evidence, deliveries: map<Key, Delivery>, neutral: nat)
    requires DeliveredSoFar(e, e.deliveries, deliveries, neutral)
    ensures DeliveriesOk(e) <==> neutral == if e.arm.NeutralArm? then 1 else 0
    ensures Indexes(deliveries, e.deliveries)
  {
  }

  method CheckDelivery(e: Evidence, artifacts: map<Text, Artifact>, d: Delivery) returns (ok: bool)
    requires WellFormed(e) && artifacts == IndexBy(ArtifactId, e.artifacts)
    ensures ok <==> DeliveryOk(e, d)
  {
    DeliveryChecksExactly(e, d);
    ok := DeliveryChecks(e, artifacts, d);
  }

  method CheckDeliveries(e: Evidence, artifacts: map<Text, Artifact>) returns (result: Option<map<Key, Delivery>>)
    requires WellFormed(e) && artifacts == IndexBy(ArtifactId, e.artifacts)
    ensures result.Some? <==> DeliveriesOk(e)
    ensures result.Some? ==> Indexes(result.value, e.deliveries)
  {
    var deliveries: map<Key, Delivery> := map[];
    var neutral := 0;
    for k := 0 to |e.deliveries|
      invariant DeliveredSoFar(e, e.deliveries[..k], deliveries, neutral)
    {
      var d := e.deliveries[k];
      var ok := CheckDelivery(e, artifacts, d);
      assert e.deliveries[..k + 1] == e.deliveries[..k] + [d];
      if !ok {
        Undelivered(e, k);
        return None;
      }
      if DeliveryKey(d) in deliveries {
        DeliveredTwice(e, k, deliveries);
        return None;
      }
      DeliveredStep(e, e.deliveries[..k], deliveries, neutral, d);
      if d.kind.NeutralReplacement? {
        neutral := neutral + 1;
      }
      deliveries := deliveries[DeliveryKey(d) := d];
    }
    assert e.deliveries[..|e.deliveries|] == e.deliveries;
    DeliveredAll(e, deliveries, neutral);
    result := if neutral == (if e.arm.NeutralArm? then 1 else 0) then Some(deliveries) else None;
  }

  // Reads

  predicate ReadChecks(
      e: Evidence, artifacts: map<Text, Artifact>, contexts: map<Text, Context>, deliveries: map<Key, Delivery>, r: Read)
  {
    && r.artifact in artifacts
    && (if r.kind.Direct? then ReadKey(r) in deliveries && ReadsDelivery(r, deliveries[ReadKey(r)])
        else
          && ReadKey(r) !in deliveries && r.context in contexts
          && (exists d :: d in e.deliveries && DeliveredToActor(e, d, r.artifact, contexts[r.context].actor))
          && var a := artifacts[r.artifact];
             a.channel == r.channel && a.observed == r.observed && a.payloadBytes == r.payloadBytes)
    && r.context in contexts
    && exists entry :: entry in contexts[r.context].entries && NamesEntry(r, contexts[r.context], entry)
  }

  lemma InContextExactly(e: Evidence, r: Read)
    requires WellFormed(e)
    ensures var contexts := IndexBy(ContextId, e.contexts);
      InContext(e, r) <==>
        (r.context in contexts && exists entry :: entry in contexts[r.context].entries && NamesEntry(r, contexts[r.context], entry))
  {
    IdsAreDistinct(e);
    var contexts := IndexBy(ContextId, e.contexts);
    if InContext(e, r) {
      var c, entry :| c in e.contexts && entry in c.entries && NamesEntry(r, c, entry);
      Lookup(ContextId, e.contexts, c);
    }
    if r.context in contexts {
      Found(ContextId, e.contexts, r.context);
    }
  }

  lemma DirectExactly(e: Evidence, deliveries: map<Key, Delivery>, r: Read)
    requires Indexes(deliveries, e.deliveries)
    ensures (ReadKey(r) in deliveries && ReadsDelivery(r, deliveries[ReadKey(r)]))
      <==> exists d :: d in e.deliveries && ReadsDelivery(r, d)
  {
  }

  lemma RetainedExactly(e: Evidence, deliveries: map<Key, Delivery>, r: Read)
    requires WellFormed(e) && Indexes(deliveries, e.deliveries)
    ensures var artifacts, contexts := IndexBy(ArtifactId, e.artifacts), IndexBy(ContextId, e.contexts);
      RetainedOk(e, r) <==>
        && ReadKey(r) !in deliveries && r.context in contexts && r.artifact in artifacts
        && (exists d :: d in e.deliveries && DeliveredToActor(e, d, r.artifact, contexts[r.context].actor))
        && var a := artifacts[r.artifact];
           a.channel == r.channel && a.observed == r.observed && a.payloadBytes == r.payloadBytes
  {
    IdsAreDistinct(e);
    var artifacts, contexts := IndexBy(ArtifactId, e.artifacts), IndexBy(ContextId, e.contexts);
    if RetainedOk(e, r) {
      var c, d :| c in e.contexts && c.id == r.context && d in e.deliveries && DeliveredToActor(e, d, r.artifact, c.actor);
      Lookup(ContextId, e.contexts, c);
      var a :| a in e.artifacts && a.id == r.artifact && a.channel == r.channel && a.observed == r.observed && a.payloadBytes == r.payloadBytes;
      Lookup(ArtifactId, e.artifacts, a);
    }
    if r.artifact in artifacts {
      Found(ArtifactId, e.artifacts, r.artifact);
    }
    if r.context in contexts {
      Found(ContextId, e.contexts, r.context);
    }
  }

  lemma ReadChecksExactly(e: Evidence, deliveries: map<Key, Delivery>, r: Read)
    requires WellFormed(e) && Indexes(deliveries, e.deliveries)
    ensures ReadChecks(e, IndexBy(ArtifactId, e.artifacts), IndexBy(ContextId, e.contexts), deliveries, r) <==> ReadOk(e, r)
  {
    InContextExactly(e, r);
    DirectExactly(e, deliveries, r);
    RetainedExactly(e, deliveries, r);
    KnownArtifact(e, r.artifact);
  }

  lemma KnownArtifact(e: Evidence, id: Text)
    requires WellFormed(e)
    ensures id in IndexBy(ArtifactId, e.artifacts) <==> exists a :: a in e.artifacts && Names(a, id)
  {
    IdsAreDistinct(e);
    if a :| a in e.artifacts && Names(a, id) {
      Lookup(ArtifactId, e.artifacts, a);
    }
    if id in IndexBy(ArtifactId, e.artifacts) {
      Found(ArtifactId, e.artifacts, id);
      assert Names(IndexBy(ArtifactId, e.artifacts)[id], id);
    }
  }

  /** The state of the loop over the reads after `log`. */
  ghost predicate ReadSoFar(e: Evidence, log: seq<Read>, keys: set<Key>, direct: set<Key>) {
    && (forall r :: r in log ==> ReadOk(e, r))
    && (forall key :: key in keys <==> HasRead(log, key))
    && forall key :: key in direct <==> HasDirectRead(log, key)
  }

  lemma ReadStep(e: Evidence, log: seq<Read>, keys: set<Key>, direct: set<Key>, r: Read)
    requires ReadSoFar(e, log, keys, direct) && ReadOk(e, r)
    ensures ReadSoFar(e, log + [r], keys + {ReadKey(r)}, if r.kind.Direct? then direct + {ReadKey(r)} else direct)
  {
    ReadKeysGrow(log, r);
  }

  method CheckRead(
      e: Evidence, artifacts: map<Text, Artifact>, contexts: map<Text, Context>, deliveries: map<Key, Delivery>, r: Read)
    returns (ok: bool)
    requires WellFormed(e) && Indexes(deliveries, e.deliveries)
    requires artifacts == IndexBy(ArtifactId, e.artifacts) && contexts == IndexBy(ContextId, e.contexts)
    ensures ok <==> ReadOk(e, r)
  {
    ReadChecksExactly(e, deliveries, r);
    ok := ReadChecks(e, artifacts, contexts, deliveries, r);
  }

  method CheckReads(e: Evidence, artifacts: map<Text, Artifact>, deliveries: map<Key, Delivery>)
    returns (result: Option<(set<Key>, set<Key>)>)
    requires WellFormed(e) && artifacts == IndexBy(ArtifactId, e.artifacts) && Indexes(deliveries, e.deliveries)
    ensures result.Some? <==> forall r :: r in e.readLog ==> ReadOk(e, r)
    ensures result.Some? ==> ReadSoFar(e, e.readLog, result.value.0, result.value.1)
  {
    var contexts := IndexBy(ContextId, e.contexts);
    var keys: set<Key>, direct: set<Key> := {}, {};
    for k := 0 to |e.readLog|
      invariant ReadSoFar(e, e.readLog[..k], keys, direct)
    {
      var r := e.readLog[k];
      var ok := CheckRead(e, artifacts, contexts, deliveries, r);
      if !ok {
        return None;
      }
      assert e.readLog[..k + 1] == e.readLog[..k] + [r];
      ReadStep(e, e.readLog[..k], keys, direct, r);
      if r.kind.Direct? {
        direct := direct + {ReadKey(r)};
      }
      keys := keys + {ReadKey(r)};
    }
    assert e.readLog[..|e.readLog|] == e.readLog;
    result := Some((keys, direct));
  }

  lemma ReadKeysGrow(log: seq<Read>, r: Read)
    ensures forall key :: HasRead(log + [r], key) <==> HasRead(log, key) || key == ReadKey(r)
    ensures forall key :: HasDirectRead(log + [r], key) <==> HasDirectRead(log, key) || (r.kind.Direct? && key == ReadKey(r))
  {
    assert r in log + [r];
    forall key ensures HasRead(log + [r], key) <==> HasRead(log, key) || key == ReadKey(r)
      ensures HasDirectRead(log + [r], key) <==> HasDirectRead(log, key) || (r.kind.Direct? && key == ReadKey(r))
    {
      if HasRead(log, key) {
        var x :| x in log && ReadKey(x) == key;
        assert x in log + [r];
      }
      if HasDirectRead(log, key) {
        var x :| x in log && x.kind.Direct? && ReadKey(x) == key;
        assert x in log + [r];
      }
    }
  }

  // The whole check

  function Consumers(keys: set<Key>, artifact: Text): set<Text> {
    set key | key in keys && key.0 == artifact :: key.1
  }

  lemma ConsumersExactly(keys: set<Key>, artifact: Text, x: Text)
    ensures x in Consumers(keys, artifact) <==> (artifact, x) in keys
  {
    if (artifact, x) in keys {
      assert (artifact, x).0 == artifact && (artifact, x).1 == x;
    }
  }

  predicate EntriesRead(c: Context, keys: set<Key>) {
    forall entry :: entry in c.entries && entry.kind.FromArtifact? ==> (entry.ref, c.callId) in keys
  }

  ghost predicate ConsumersRead(a: Artifact, keys: set<Key>) {
    forall x :: x in a.consumers <==> (a.id, x) in keys
  }

  ghost predicate AllConsumersRead(artifacts: seq<Artifact>, keys: set<Key>) {
    forall a :: a in artifacts ==> ConsumersRead(a, keys)
  }

  method InsertText(xs: seq<Text>, x: Text) returns (ys: seq<Text>)
    requires Ascends(xs) && x !in xs
    ensures Ascends(ys) && forall y :: y in ys <==> y == x || y in xs
  {
    var k := 0;
    while k < |xs| && TextLeq(xs[k], x)
      invariant 0 <= k <= |xs| && forall i :: 0 <= i < k ==> TextLeq(xs[i], x)
    {
      k := k + 1;
    }
    ys := xs[..k] + [x] + xs[k..];
    if k < |xs| {
      TextLeqTotal(xs[k], x);
    }
    forall i | k <= i < |xs| ensures TextLeq(x, xs[i]) {
      if i > k {
        TextLeqTransitive(x, xs[k], xs[i]);
      }
    }
    forall i, j | 0 <= i < j < |ys| ensures TextLeq(ys[i], ys[j]) && ys[i] != ys[j] {
      assert i < k ==> ys[i] == xs[i];
      assert j > k ==> ys[j] == xs[j - 1];
      assert i > k ==> ys[i] == xs[i - 1];
      assert j < k ==> ys[j] == xs[j];
    }
    assert forall y :: y in ys <==> y in xs[..k] || y == x || y in xs[k..];
    assert xs == xs[..k] + xs[k..];
  }

  /** `tuple(sorted(texts))`. */
  method SortedTexts(texts: set<Text>) returns (xs: seq<Text>)
    ensures Ascends(xs) && forall x :: x in xs <==> x in texts
  {
    xs := [];
    var rest := texts;
    while rest != {}
      invariant rest <= texts && Ascends(xs) && forall x :: x in xs <==> x in texts && x !in rest
      decreases |rest|
    {
      var x :| x in rest;
      xs := InsertText(xs, x);
      rest := rest - {x};
    }
  }

  method CheckConsumers(artifacts: seq<Artifact>, keys: set<Key>) returns (accepted: bool)
    requires forall i :: 0 <= i < |artifacts| ==> Ascends(artifacts[i].consumers)
    ensures accepted <==> AllConsumersRead(artifacts, keys)
  {
    for i := 0 to |artifacts|
      invariant forall j :: 0 <= j < i ==> ConsumersRead(artifacts[j], keys)
    {
      var a := artifacts[i];
      var readers := SortedTexts(Consumers(keys, a.id));
      forall x ensures x in readers <==> (a.id, x) in keys {
        ConsumersExactly(keys, a.id, x);
      }
      if readers != a.consumers {
        if ConsumersRead(a, keys) {
          AscendingSame(readers, a.consumers);
        }
        return false;
      }
    }
    accepted := true;
  }

  predicate AllEntriesRead(contexts: seq<Context>, keys: set<Key>) {
    forall c :: c in contexts ==> EntriesRead(c, keys)
  }

  ghost predicate ReadConsequences(e: Evidence) {
    && (forall d :: d in e.deliveries ==> HasDirectRead(e.readLog, DeliveryKey(d)))
    && (forall a, x :: a in e.artifacts ==> (x in a.consumers <==> HasRead(e.readLog, (a.id, x))))
    && (forall c, entry :: c in e.contexts && entry in c.entries && entry.kind.FromArtifact? ==>
         HasRead(e.readLog, (entry.ref, c.callId)))
  }

  lemma ConsumersReadExactly(e: Evidence, keys: set<Key>)
    requires forall key :: key in keys <==> HasRead(e.readLog, key)
    ensures AllConsumersRead(e.artifacts, keys)
      <==> forall a, x :: a in e.artifacts ==> (x in a.consumers <==> HasRead(e.readLog, (a.id, x)))
  {
    if AllConsumersRead(e.artifacts, keys) {
      forall a, x | a in e.artifacts ensures x in a.consumers <==> HasRead(e.readLog, (a.id, x)) {
        assert ConsumersRead(a, keys);
      }
    }
  }

  lemma EntriesReadExactly(e: Evidence, keys: set<Key>)
    requires forall key :: key in keys <==> HasRead(e.readLog, key)
    ensures AllEntriesRead(e.contexts, keys)
      <==> forall c, entry :: c in e.contexts && entry in c.entries && entry.kind.FromArtifact? ==>
        HasRead(e.readLog, (entry.ref, c.callId))
  {
  }

  lemma DirectKeysExactly(e: Evidence, deliveries: map<Key, Delivery>, direct: set<Key>)
    requires Indexes(deliveries, e.deliveries)
    requires forall key :: key in direct <==> HasDirectRead(e.readLog, key)
    ensures (forall key :: key in deliveries ==> key in direct)
      <==> forall d :: d in e.deliveries ==> HasDirectRead(e.readLog, DeliveryKey(d))
  {
    if forall d :: d in e.deliveries ==> HasDirectRead(e.readLog, DeliveryKey(d)) {
      forall key | key in deliveries ensures key in direct {
        assert DeliveryKey(deliveries[key]) == key;
      }
    }
  }

  method CheckConsequences(e: Evidence, deliveries: map<Key, Delivery>, keys: set<Key>, direct: set<Key>)
    returns (accepted: bool)
    requires WellFormed(e) && Indexes(deliveries, e.deliveries)
    requires forall key :: key in keys <==> HasRead(e.readLog, key)
    requires forall key :: key in direct <==> HasDirectRead(e.readLog, key)
    ensures accepted <==> ReadConsequences(e)
  {
    DirectKeysExactly(e, deliveries, direct);
    ConsumersReadExactly(e, keys);
    EntriesReadExactly(e, keys);
    var consumersRead := CheckConsumers(e.artifacts, keys);
    accepted := (forall key :: key in deliveries ==> key in direct) && consumersRead && AllEntriesRead(e.contexts, keys);
  }

  lemma FlowInThreeParts(e: Evidence)
    ensures ValidFlow(e) <==>
      DeliveriesOk(e) && (forall r :: r in e.readLog ==> ReadOk(e, r)) && ReadConsequences(e)
  {
  }

  /** The artifact flow is accepted exactly when it is valid. */
  method ValidateArtifactFlow(e: Evidence) returns (accepted: bool)
    requires WellFormed(e)
    ensures accepted <==> ValidFlow(e)
  {
    FlowInThreeParts(e);
    var artifacts := IndexBy(ArtifactId, e.artifacts);
    var deliveries := CheckDeliveries(e, artifacts);
    if deliveries.None? {
      return false;
    }
    var checked := CheckReads(e, artifacts, deliveries.value);
    if checked.None? {
      return false;
    }
    accepted := CheckConsequences(e, deliveries.value, checked.value.0, checked.value.1);
  }
}
