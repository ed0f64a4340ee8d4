/**
 A conforming manifest on which a faultless run is refused: a full panel whose samples tie in rank, with
 name tags that descend where the schedule ascends.
 */
module Gate0TiedPanel {
  import opened Wrappers
  import opened Scalars
  import opened Collections
  import opened EvidenceFiles
  import opened Gate0Plan
  import opened Gate0Run
  import opened Gate0Results
  import opened Gate0Replay
  import opened Gate0Conformance
  import opened Gate0Executors
  import opened Gate0Ties

  const PANEL: Text := [112]

  /** The two decimal digits of a position below a hundred. */
  function ItemName(k: nat): (name: Text)
    requires k < PANEL_ITEM_COUNT
    ensures |name| == 2 && 48 <= name[0] < 58 && 48 <= name[1] < 58
  {
    [48 + k / 10, 48 + k % 10]
  }

  /** `S00`, `X00`, `PA-a` and `LOW`, by template. */
  function AnswerOf(k: nat): (answer: Text)
    ensures answer != [] && Loud(answer[0])
  {
    if k % 4 == 0 then [83, 48, 48] else if k % 4 == 1 then [88, 48, 48]
    else if k % 4 == 2 then [80, 65, 45, 97] else [76, 79, 87]
  }

  function TiedItems(): (items: seq<Item>)
    ensures |items| == PANEL_ITEM_COUNT
    ensures forall k :: 0 <= k < |items| ==> items[k] == Item(ItemName(k), TEMPLATES[k % 4], Zeros(24), AnswerOf(k))
  {
    seq(PANEL_ITEM_COUNT, k requires 0 <= k < PANEL_ITEM_COUNT => Item(ItemName(k), TEMPLATES[k % 4], Zeros(24), AnswerOf(k)))
  }

  /** `{}`, or `{"t":"<text>"}` around a delivered text. */
  function Frame(id: CallId): (Text, Text) {
    if id.actor.ResponderB? && CarriesArtifact(id.sample.arm) then ([123, 34, 116, 34, 58, 34], [34, 125]) else ([123, 125], [])
  }

  /** The panel's requests may be written in any way. */
  function TiedPanel(frame: CallId -> (Text, Text)): Frozen {
    Frozen(PANEL, TiedItems(), PANEL, frame, (x: SampleId) => 0)
  }

  // The panel is valid, and its manifest conforms

  lemma TiedItemsAreDistinct()
    ensures DistinctBy(ItemId, TiedItems())
  {
    forall i, j | 0 <= i < j < PANEL_ITEM_COUNT ensures ItemId(TiedItems()[i]) != ItemId(TiedItems()[j]) {
      assert ItemName(i)[0] != ItemName(j)[0] || ItemName(i)[1] != ItemName(j)[1];
    }
  }

  lemma TiedPanelIsValid()
    ensures ValidPanel(TiedItems())
  {
    var items := TiedItems();
    TiedItemsAreDistinct();
    forall i | 0 <= i < |items| ensures items[i].template in TEMPLATES {
      assert items[i].template == TEMPLATES[i % 4];
    }
    forall k | 0 <= k < |TEMPLATES| ensures exists i :: 0 <= i < |items| && items[i].template == TEMPLATES[k] {
      assert items[k].template == TEMPLATES[k];
    }
  }

  /** The capitals with which the answers start. */
  predicate Loud(c: CodePoint) {
    c in {83, 88, 80, 76}
  }

  predicate Quiet(t: Text) {
    forall i :: 0 <= i < |t| ==> !Loud(t[i])
  }

  lemma ShareIsPlain(k: nat)
    requires k < PANEL_ITEM_COUNT
    ensures Plain(ArtifactText(TiedItems()[k])) && Quiet(ArtifactText(TiedItems()[k]))
    ensures Encodable(ArtifactText(TiedItems()[k]))
  {
  }

  lemma DeliveredIsPlain(k: nat, arm: Arm)
    requires k < PANEL_ITEM_COUNT && DeliveredText(TiedItems()[k], arm).Some?
    ensures Plain(DeliveredText(TiedItems()[k], arm).value) && Quiet(DeliveredText(TiedItems()[k], arm).value)
  {
    ShareIsPlain(k);
  }

  lemma QuietHidesAnswer(text: Text, k: nat)
    requires Quiet(text)
    ensures !Contains(text, AnswerOf(k))
  {
    forall a: Text, b: Text ensures text != a + AnswerOf(k) + b {
      var other := a + AnswerOf(k) + b;
      assert other[|a|] == AnswerOf(k)[0];
    }
  }

  lemma PayloadIsQuiet(id: CallId, k: nat, artifact: Option<Text>)
    requires k < PANEL_ITEM_COUNT && (artifact.None? || artifact == DeliveredText(TiedItems()[k], id.sample.arm))
    ensures Quiet(PayloadText(Framed(TiedPanel(Frame), id, artifact)))
  {
    if artifact.Some? {
      DeliveredIsPlain(k, id.sample.arm);
      PlainBytes(artifact.value);
    }
  }

  lemma TiedItemAt(digest: Text, k: nat)
    requires k < PANEL_ITEM_COUNT
    ensures TiedItems()[k].id in ItemsById(Build(TiedPanel(Frame), digest))
    ensures ItemsById(Build(TiedPanel(Frame), digest))[TiedItems()[k].id] == TiedItems()[k]
  {
    TiedItemsAreDistinct();
    IndexContent(ItemId, TiedItems(), k);
  }

  lemma NothingLeaks(digest: Text, k: nat)
    requires k < |BuildArms(TiedPanel(Frame))|
    ensures !Leaks(Build(TiedPanel(Frame), digest), BuildArms(TiedPanel(Frame))[k])
  {
    var arm := BuildArms(TiedPanel(Frame))[k];
    TiedItemAt(digest, k / 20);
    PayloadIsQuiet(Call(arm.sample, ProducerA), k / 20, None);
    PayloadIsQuiet(Call(arm.sample, ResponderB), k / 20, DeliveredText(TiedItems()[k / 20], arm.sample.arm));
    QuietHidesAnswer(PayloadText(arm.producer), k / 20);
    QuietHidesAnswer(PayloadText(arm.responder), k / 20);
  }

  /** Plain requests leak nothing. */
  lemma PlainFramesConform(digest: Text)
    ensures SameFrames(TiedPanel(Frame)) && LeakFree(Build(TiedPanel(Frame), digest))
  {
    forall k | 0 <= k < |BuildArms(TiedPanel(Frame))|
      ensures !Leaks(Build(TiedPanel(Frame), digest), BuildArms(TiedPanel(Frame))[k])
    {
      NothingLeaks(digest, k);
    }
  }

  lemma TiedPanelConforms(frame: CallId -> (Text, Text), digest: Text)
    requires SameFrames(TiedPanel(frame)) && LeakFree(Build(TiedPanel(frame), digest))
    ensures Conforms(Build(TiedPanel(frame), digest))
  {
    TiedItemsAreDistinct();
    forall i | 0 <= i < |TiedItems()| ensures PlainShare(TiedItems()[i]) {
      ShareIsPlain(i);
      PlainBytes(ArtifactText(TiedItems()[i]));
    }
    BuiltConformsExactly(TiedPanel(frame), digest);
  }

  lemma TiedPanelIsBuildable(frame: CallId -> (Text, Text))
    ensures Buildable(TiedPanel(frame))
  {
    TiedItemsAreDistinct();
    forall i | 0 <= i < |TiedItems()| ensures Encodable(ArtifactText(TiedItems()[i])) {
      ShareIsPlain(i);
    }
  }

  // Tags

  function Digit(c: CodePoint): Byte {
    if 48 <= c < 58 then c else 48
  }

  function ArmDigit(arm: Arm): Byte {
    match arm
    case FullInformation => 57
    case IntactExchange => 56
    case MatchedNeutral => 55
    case PrivateAOnly => 54
    case PrivateBOnly => 53
  }

  /** Sixteen digits, the last four naming item, replicate and arm. */
  function FallingTag(x: SampleId): (tag: Bytes)
    ensures |tag| == 16
  {
    Zeros(12) + [if |x.item| == 2 then Digit(x.item[0]) else 48, if |x.item| == 2 then Digit(x.item[1]) else 48,
                 if x.replicate < 4 then 57 - x.replicate else 48, ArmDigit(x.arm)]
  }

  lemma TagParts(x: SampleId)
    requires |x.item| == 2 && x.replicate < 4
    ensures FallingTag(x)[12] == Digit(x.item[0]) && FallingTag(x)[13] == Digit(x.item[1])
    ensures FallingTag(x)[14] == 57 - x.replicate && FallingTag(x)[15] == ArmDigit(x.arm)
  {
  }

  lemma PlannedItemName(frame: CallId -> (Text, Text), digest: Text, x: SampleId)
    requires Planned(Build(TiedPanel(frame), digest), x)
    ensures |x.item| == 2 && 48 <= x.item[0] < 58 && 48 <= x.item[1] < 58 && x.panel == PANEL
  {
    var i :| 0 <= i < PANEL_ITEM_COUNT && TiedItems()[i].id == x.item;
  }

  /** No two samples of the panel share a tag. */
  lemma TagsDiffer(frame: CallId -> (Text, Text), digest: Text, x: SampleId, y: SampleId)
    requires Planned(Build(TiedPanel(frame), digest), x) && Planned(Build(TiedPanel(frame), digest), y) && x != y
    ensures FallingTag(x) != FallingTag(y)
  {
    PlannedItemName(frame, digest, x);
    PlannedItemName(frame, digest, y);
    TagParts(x);
    TagParts(y);
    assert x.item[0] == y.item[0] && x.item[1] == y.item[1] ==> x.item == y.item;
  }

  lemma ArmLabelsDecide(panel: Text, item: Text, replicate: nat, a: Arm, b: Arm)
    ensures TextLeq(SampleLabel(Sample(panel, item, replicate, a)), SampleLabel(Sample(panel, item, replicate, b)))
      <==> TextLeq(ArmLabel(a), ArmLabel(b))
  {
    var prefix: Text := panel + [58] + item + [58, 114] + Decimal(replicate) + [58];
    LeqAfterPrefix(prefix, ArmLabel(a), ArmLabel(b));
  }

  /** The label of one arm of the first item and replicate precedes the other's, and its tag follows. */
  lemma LabelsRiseTagsFall()
    ensures var x, y := Sample(PANEL, ItemName(0), 0, FullInformation), Sample(PANEL, ItemName(0), 0, IntactExchange);
      !TextLeq(SampleLabel(y), SampleLabel(x)) && !Before(FallingTag(x), FallingTag(y))
  {
    var x, y := Sample(PANEL, ItemName(0), 0, FullInformation), Sample(PANEL, ItemName(0), 0, IntactExchange);
    ArmLabelsDecide(PANEL, ItemName(0), 0, IntactExchange, FullInformation);
    var prefix: Bytes := Zeros(12) + [48, 48, 57];
    assert FallingTag(x) == prefix + [57] && FallingTag(y) == prefix + [56];
    LeqAfterPrefix(prefix, [57], [56]);
  }

  lemma SampleIsScheduled(frozen: Frozen, digest: Text, x: SampleId) returns (i: nat)
    requires frozen.items != [] && DistinctBy(ItemId, frozen.items) && Planned(Build(frozen, digest), x)
    ensures i < |ResponderSamples(Build(frozen, digest).schedule)|
    ensures ResponderSamples(Build(frozen, digest).schedule)[i] == x
  {
    BuiltArmsAreDistinct(frozen);
    PlannedIsBuilt(frozen, digest, x);
    BuiltManifestIsValid(frozen, digest);
    ScheduledResponder(Build(frozen, digest), x);
    i :| i < |ResponderSamples(Build(frozen, digest).schedule)| && ResponderSamples(Build(frozen, digest).schedule)[i] == x;
  }

  lemma TiedPanelFalls(frame: CallId -> (Text, Text), digest: Text)
    ensures !TiedTagsRise(TiedPanel(frame), digest, FallingTag)
  {
    TiedItemsAreDistinct();
    var frozen := TiedPanel(frame);
    var x, y := Sample(PANEL, ItemName(0), 0, FullInformation), Sample(PANEL, ItemName(0), 0, IntactExchange);
    assert Build(frozen, digest).items[0].id == x.item == y.item;
    var i := SampleIsScheduled(frozen, digest, x);
    var j := SampleIsScheduled(frozen, digest, y);
    LabelsRiseTagsFall();
    if j < i {
      BuiltResponders(frozen, digest, j, i);
    }
    assert i < j;
  }

  lemma TiedTagsApart(frame: CallId -> (Text, Text), digest: Text)
    ensures TagsApart(Build(TiedPanel(frame), digest), FallingTag)
  {
    var m := Build(TiedPanel(frame), digest);
    TiedItemsAreDistinct();
    BuiltManifestIsValid(TiedPanel(frame), digest);
    ScheduledResponders(m);
    var samples := ResponderSamples(m.schedule);
    forall i, j | 0 <= i < j < |samples| ensures FallingTag(samples[i]) != FallingTag(samples[j]) {
      ScheduledSampleIsPlanned(m, i);
      ScheduledSampleIsPlanned(m, j);
      PlannedArm(m, samples[i]);
      PlannedArm(m, samples[j]);
      TagsDiffer(frame, digest, samples[i], samples[j]);
    }
  }

  lemma PlannedArm(m: Manifest, x: SampleId)
    requires ValidManifest(m) && x in ArmsBySample(m)
    ensures Planned(m, x)
  {
    IndexDomain(SampleOf, m.arms, x);
    var k :| 0 <= k < |m.arms| && SampleOf(m.arms[k]) == x;
    assert Planned(m, m.arms[k].sample);
  }

  /** A valid panel, whose requests spell out no answers, a conforming manifest, tags and an executor: the
      run finishes, and its own replay refuses it. */
  lemma TiedPanelIsUnsafe(frame: CallId -> (Text, Text), digest: Text)
    requires SameFrames(TiedPanel(frame)) && LeakFree(Build(TiedPanel(frame), digest))
    ensures ValidPanel(TiedPanel(frame).items) && Buildable(TiedPanel(frame)) && EvenTags(FallingTag)
    ensures Conforms(Build(TiedPanel(frame), digest)) && !TiedTagsRise(TiedPanel(frame), digest, FallingTag)
    ensures var c := Willing(TiedPanel(frame), digest, FallingTag, map[]);
      && Authorized(c) && Runnable(c) && Execute(c).failure.None? && ReplayOfRun(c) == Err(ArmsDifferFromReport)
  {
    TiedPanelIsValid();
    TiedPanelIsBuildable(frame);
    TiedPanelConforms(frame, digest);
    TiedPanelFalls(frame, digest);
    TiedTagsApart(frame, digest);
    UnsafeManifestIsRefused(TiedPanel(frame), digest, FallingTag);
  }
}
