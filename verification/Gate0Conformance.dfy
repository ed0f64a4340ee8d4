/**
 The conformance check that every run starts with, on built manifests. The builder gives an intact
 arm and its neutral twin the same request around the artifact's text, so all turns on the texts.
 */
module Gate0Conformance {
  import opened Wrappers
  import opened Scalars
  import opened Collections
  import opened Gate0Plan
  import opened Gate0Run

  /** Intact and neutral requests differ only in the artifact's text. */
  ghost predicate SameFrames(frozen: Frozen) {
    forall x: SampleId, actor: Actor :: x.arm.IntactExchange? ==>
      frozen.frame(Call(x, actor)) == frozen.frame(Call(x.(arm := MatchedNeutral), actor))
  }

  /** The share is written in JSON as it is: every character is one byte and none is escaped. */
  predicate PlainShare(item: Item) {
    EscapedBytes(ArtifactText(item)) == |ArtifactText(item)|
  }

  lemma BuiltArmDelivers(frozen: Frozen, k: nat)
    requires k < 20 * |frozen.items|
    ensures CarriesArtifact(BuildArms(frozen)[k].sample.arm) ==> BuildArms(frozen)[k].responder.artifact.Some?
  {
  }

  lemma BuiltManifestDelivers(frozen: Frozen, digest: Text)
    ensures Delivers(Build(frozen, digest)) && Withholds(Build(frozen, digest))
  {
    forall k | 0 <= k < 20 * |frozen.items|
      ensures CarriesArtifact(BuildArms(frozen)[k].sample.arm) ==> BuildArms(frozen)[k].responder.artifact.Some?
    {
      BuiltArmDelivers(frozen, k);
    }
  }

  lemma NeutralIsPlain(share: Text)
    requires share != []
    ensures EscapedBytes(NeutralText(share)) == |share|
  {
    PlainBytes(NeutralText(share));
  }

  lemma TwinsExactly(frozen: Frozen, item: Item, replicate: nat)
    requires SameFrames(frozen)
    ensures Twins(BuildArm(frozen, item, replicate, IntactExchange), BuildArm(frozen, item, replicate, MatchedNeutral))
      <==> PlainShare(item)
  {
    NeutralIsPlain(ArtifactText(item));
    var x := Sample(frozen.panel, item.id, replicate, IntactExchange);
    assert frozen.frame(Call(x, ProducerA)) == frozen.frame(Call(x.(arm := MatchedNeutral), ProducerA));
    assert frozen.frame(Call(x, ResponderB)) == frozen.frame(Call(x.(arm := MatchedNeutral), ResponderB));
  }

  lemma BuiltTwins(frozen: Frozen, i: nat, j: nat)
    requires SameFrames(frozen) && DistinctBy(ItemId, frozen.items)
    requires i < 20 * |frozen.items| && j < 20 * |frozen.items| && NeutralOf(BuildArms(frozen)[i], BuildArms(frozen)[j])
    requires PlainShare(frozen.items[i / 20])
    ensures Twins(BuildArms(frozen)[i], BuildArms(frozen)[j])
  {
    assert ItemId(frozen.items[i / 20]) == ItemId(frozen.items[j / 20]);
    TwinsExactly(frozen, frozen.items[i / 20], i % 20 / 5);
  }

  lemma BuiltArmIndex(frozen: Frozen, i: nat, replicate: nat, a: nat) returns (k: nat)
    requires i < |frozen.items| && replicate < REPLICATES && a < 5
    ensures k < |BuildArms(frozen)| && BuildArms(frozen)[k] == BuildArm(frozen, frozen.items[i], replicate, ARMS[a])
  {
    BuiltArmAt(frozen, i, replicate, a);
    k := 20 * i + 5 * replicate + a;
  }

  /** An item's intact arm and its neutral twin stand among the arms. */
  lemma TwinsAreBuilt(frozen: Frozen, i: nat) returns (a: nat, b: nat)
    requires i < |frozen.items|
    ensures a < |BuildArms(frozen)| && BuildArms(frozen)[a] == BuildArm(frozen, frozen.items[i], 0, IntactExchange)
    ensures b < |BuildArms(frozen)| && BuildArms(frozen)[b] == BuildArm(frozen, frozen.items[i], 0, MatchedNeutral)
  {
    a := BuiltArmIndex(frozen, i, 0, 0);
    b := BuiltArmIndex(frozen, i, 0, 1);
  }

  lemma MatchingMeansPlain(frozen: Frozen, digest: Text, i: nat)
    requires SameFrames(frozen) && NeutralsMatch(Build(frozen, digest)) && i < |frozen.items|
    ensures PlainShare(frozen.items[i])
  {
    var a, b := TwinsAreBuilt(frozen, i);
    assert NeutralOf(Build(frozen, digest).arms[a], Build(frozen, digest).arms[b]);
    TwinsExactly(frozen, frozen.items[i], 0);
  }

  lemma PlainMeansMatching(frozen: Frozen, digest: Text)
    requires SameFrames(frozen) && DistinctBy(ItemId, frozen.items)
    requires forall i :: 0 <= i < |frozen.items| ==> PlainShare(frozen.items[i])
    ensures NeutralsMatch(Build(frozen, digest))
  {
    var arms := Build(frozen, digest).arms;
    forall i, j | 0 <= i < |arms| && 0 <= j < |arms| && NeutralOf(arms[i], arms[j]) ensures Twins(arms[i], arms[j]) {
      BuiltTwins(frozen, i, j);
    }
  }

  /** A built manifest conforms exactly when no request spells out its answer and every share is plain. */
  lemma BuiltConformsExactly(frozen: Frozen, digest: Text)
    requires SameFrames(frozen) && DistinctBy(ItemId, frozen.items)
    ensures Conforms(Build(frozen, digest)) <==>
      && LeakFree(Build(frozen, digest))
      && (forall i :: 0 <= i < |frozen.items| ==> PlainShare(frozen.items[i]))
  {
    BuiltManifestDelivers(frozen, digest);
    if NeutralsMatch(Build(frozen, digest)) {
      forall i | 0 <= i < |frozen.items| ensures PlainShare(frozen.items[i]) {
        MatchingMeansPlain(frozen, digest, i);
      }
    }
    if forall i :: 0 <= i < |frozen.items| ==> PlainShare(frozen.items[i]) {
      PlainMeansMatching(frozen, digest);
    }
  }
}
