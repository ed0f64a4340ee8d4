/**
 The forced-exchange plan: every panel item, replicate and arm gets a producer call followed by a
 responder call, and the arms are run in the order of their randomization ranks.
 */
module Gate0Plan {
  import opened Wrappers
  import opened Scalars
  import opened Sorting
  import opened Collections

  /** SHA-256, taken as injective: a digest is known by what it digests. */
  datatype Digest<T> = Digest(preimage: T)

  datatype Arm = IntactExchange | MatchedNeutral | PrivateAOnly | PrivateBOnly | FullInformation

  datatype Actor = ProducerA | ResponderB

  const ARMS: seq<Arm> := [IntactExchange, MatchedNeutral, PrivateAOnly, PrivateBOnly, FullInformation]

  const REPLICATES: nat := 4

  /** The colon-separated identifiers of the source, kept as the records they spell out. */
  datatype SampleId = Sample(panel: Text, item: Text, replicate: nat, arm: Arm)
  datatype CallId = Call(sample: SampleId, actor: Actor)

  datatype PairKey = PairKey(sample: SampleId, providerConfig: Text)

  /**
   A request payload, as its canonical JSON cut in two where the delivered artifact's text stands.
   Without an artifact the head is the whole.
   */
  datatype Payload = Payload(head: Text, artifact: Option<Text>, tail: Text)

  datatype CallPlan = CallPlan(callId: CallId, pairKey: PairKey, payload: Payload)

  datatype ArmPlan = ArmPlan(
    sample: SampleId, template: Text, pairKey: PairKey, rank: nat, producer: Payload, responder: Payload)

  /** A panel item: its private digest names the share its producer is expected to emit. */
  datatype Item = Item(id: Text, template: Text, shareDigest: Text, expectedAnswer: Text)

  datatype Manifest = Manifest(
    digest: Text, panel: Text, items: seq<Item>, providerConfig: Text,
    arms: seq<ArmPlan>, schedule: seq<CallId>)

  // Artifact texts

  /** `share:<item>:<digest>`. */
  function ArtifactText(item: Item): Text {
    [115, 104, 97, 114, 101, 58] + item.id + [58] + item.shareDigest
  }

  const LETTER_N: CodePoint := 78
  const LETTER_Z: CodePoint := 90

  predicate AllN(t: Text) {
    forall i :: 0 <= i < |t| ==> t[i] == LETTER_N
  }

  /** As many `N`s as the original has characters, or `Z`s when it is all `N`s itself. */
  function NeutralText(original: Text): (neutral: Text)
    requires original != []
    ensures |neutral| == |original| && neutral != original
  {
    var fill := if AllN(original) then LETTER_Z else LETTER_N;
    var neutral := seq(|original|, i => fill);
    assert neutral[0] == fill;
    neutral
  }

  /** The bytes of a text inside a JSON string, by section 7 of RFC 8259, non-ASCII left as it is. */
  function EscapedBytes(t: Text): nat {
    if t == [] then 0
    else (if t[0] == 34 || t[0] == 92 || t[0] in {8, 9, 10, 12, 13} then 2
          else if t[0] < 32 then 6
          else |Utf8Char(t[0])|) + EscapedBytes(t[1..])
  }

  function PricedUnits(payload: Payload): nat {
    |Utf8(payload.head)| + (if payload.artifact.Some? then EscapedBytes(payload.artifact.value) else 0) + |Utf8(payload.tail)|
  }

  /** A character as `json.dumps` writes it with `ensure_ascii=False`. */
  function EscapedChar(c: CodePoint): Text {
    if c == 34 || c == 92 then [92, c]
    else if c == 8 then [92, 98]
    else if c == 9 then [92, 116]
    else if c == 10 then [92, 110]
    else if c == 12 then [92, 102]
    else if c == 13 then [92, 114]
    else if c < 32 then [92, 117, 48, 48, HexDigit(c / 16), HexDigit(c % 16)]
    else [c]
  }

  function Escaped(t: Text): Text {
    if t == [] then [] else EscapedChar(t[0]) + Escaped(t[1..])
  }

  /** The canonical JSON of a payload. */
  function PayloadText(payload: Payload): Text {
    payload.head + (if payload.artifact.Some? then Escaped(payload.artifact.value) else []) + payload.tail
  }

  lemma {:induction false} Utf8Splits(t: Text, u: Text)
    ensures Utf8(t + u) == Utf8(t) + Utf8(u)
  {
    if t == [] {
      assert t + u == u;
    } else {
      assert (t + u)[1..] == t[1..] + u;
      Utf8Splits(t[1..], u);
    }
  }

  lemma {:induction false} EscapedHasItsBytes(t: Text)
    ensures |Utf8(Escaped(t))| == EscapedBytes(t)
  {
    if t != [] {
      Utf8Splits(EscapedChar(t[0]), Escaped(t[1..]));
      EscapedCharBytes(t[0]);
      EscapedHasItsBytes(t[1..]);
    }
  }

  lemma EscapedCharBytes(c: CodePoint)
    ensures |Utf8(EscapedChar(c))| ==
      if c == 34 || c == 92 || c in {8, 9, 10, 12, 13} then 2 else if c < 32 then 6 else |Utf8Char(c)|
  {
    var e := EscapedChar(c);
    if |e| == 6 {
      assert e[1..][1..][1..][1..][1..] == [e[5]];
      AsciiBytes(e);
    } else if |e| == 2 {
      AsciiBytes(e);
    } else {
      assert e[1..] == [];
    }
  }

  lemma {:induction false} AsciiBytes(t: Text)
    requires forall i :: 0 <= i < |t| ==> t[i] < 0x80
    ensures |Utf8(t)| == |t|
  {
    if t != [] {
      AsciiBytes(t[1..]);
    }
  }

  /** ASCII that JSON writes as it is. */
  predicate Plain(t: Text) {
    forall i :: 0 <= i < |t| ==> 32 <= t[i] < 128 && t[i] != 34 && t[i] != 92
  }

  lemma {:induction false} PlainBytes(t: Text)
    requires Plain(t)
    ensures EscapedBytes(t) == |t| && Escaped(t) == t
  {
    if t != [] {
      PlainBytes(t[1..]);
      assert t == [t[0]] + t[1..];
    }
  }

  lemma {:induction false} BytesCoverText(t: Text)
    ensures EscapedBytes(t) >= |t|
  {
    if t != [] {
      BytesCoverText(t[1..]);
    }
  }

  /** Priced units count the bytes of the canonical JSON. */
  lemma PricedUnitsAreBytes(payload: Payload)
    ensures PricedUnits(payload) == |Utf8(PayloadText(payload))|
  {
    var body: Text := if payload.artifact.Some? then Escaped(payload.artifact.value) else [];
    if payload.artifact.Some? {
      EscapedHasItsBytes(payload.artifact.value);
    }
    Utf8Splits(payload.head, body);
    Utf8Splits(payload.head + body, payload.tail);
  }

  // Calls and arms

  function ProducerCall(arm: ArmPlan): CallPlan {
    CallPlan(Call(arm.sample, ProducerA), arm.pairKey, arm.producer)
  }

  function ResponderCall(arm: ArmPlan): CallPlan {
    CallPlan(Call(arm.sample, ResponderB), arm.pairKey, arm.responder)
  }

  function CallOf(arm: ArmPlan, actor: Actor): CallPlan {
    if actor.ProducerA? then ProducerCall(arm) else ResponderCall(arm)
  }

  function ArmUnits(arm: ArmPlan): int {
    PricedUnits(arm.producer) + PricedUnits(arm.responder)
  }

  function SampleOf(arm: ArmPlan): SampleId {
    arm.sample
  }

  function RankOf(arm: ArmPlan): nat {
    arm.rank
  }

  function ItemId(item: Item): Text {
    item.id
  }

  function ArmsBySample(m: Manifest): map<SampleId, ArmPlan> {
    IndexBy(SampleOf, m.arms)
  }

  function ItemsById(m: Manifest): map<Text, Item> {
    IndexBy(ItemId, m.items)
  }

  function CallIds(arms: seq<ArmPlan>): seq<CallId> {
    if arms == [] then []
    else CallIds(arms[..|arms| - 1])
         + [Call(arms[|arms| - 1].sample, ProducerA), Call(arms[|arms| - 1].sample, ResponderB)]
  }

  function TotalUnits(m: Manifest): int {
    SumBy(ArmUnits, m.arms)
  }

  predicate Planned(m: Manifest, sample: SampleId) {
    && sample.panel == m.panel && sample.replicate < REPLICATES
    && exists i :: 0 <= i < |m.items| && m.items[i].id == sample.item
  }

  // Templates and panels

  const SUM_MOD: Text := [115, 117, 109, 95, 109, 111, 100]
  const XOR_MASK: Text := [120, 111, 114, 95, 109, 97, 115, 107]
  const ORDERED_PAIR: Text := [111, 114, 100, 101, 114, 101, 100, 95, 112, 97, 105, 114]
  const THRESHOLD_COMPARE: Text :=
    [116, 104, 114, 101, 115, 104, 111, 108, 100, 95, 99, 111, 109, 112, 97, 114, 101]

  const TEMPLATES: seq<Text> := [SUM_MOD, XOR_MASK, ORDERED_PAIR, THRESHOLD_COMPARE]

  const PANEL_ITEM_COUNT: nat := 32

  /** What the panel's own validation demands: the locked count, distinct items, exactly the locked templates. */
  ghost predicate ValidPanel(items: seq<Item>) {
    && |items| == PANEL_ITEM_COUNT && DistinctBy(ItemId, items)
    && (forall i :: 0 <= i < |items| ==> items[i].template in TEMPLATES)
    && (forall k :: 0 <= k < |TEMPLATES| ==> exists i :: 0 <= i < |items| && items[i].template == TEMPLATES[k])
  }

  /** What the manifest's own validation demands, for a panel of any size. */
  ghost predicate ValidManifest(m: Manifest) {
    && m.items != [] && DistinctBy(ItemId, m.items)
    && DistinctBy(SampleOf, m.arms)
    && (forall i :: 0 <= i < |m.arms| ==> Planned(m, m.arms[i].sample))
    && (forall sample :: Planned(m, sample) ==> sample in ArmsBySample(m))
    && (forall i :: 0 <= i < |m.arms| ==> m.arms[i].pairKey.providerConfig == m.providerConfig)
    && multiset(m.schedule) == multiset(CallIds(m.arms))
  }

  lemma {:induction false} CallIdsMembers(arms: seq<ArmPlan>, id: CallId)
    ensures id in CallIds(arms) <==> exists i :: 0 <= i < |arms| && arms[i].sample == id.sample
    ensures |CallIds(arms)| == 2 * |arms|
  {
    if arms != [] {
      var n := |arms| - 1;
      CallIdsMembers(arms[..n], id);
      if i :| 0 <= i < |arms| && arms[i].sample == id.sample && i < n {
        assert arms[..n][i] == arms[i];
      }
      if i :| 0 <= i < n && arms[..n][i].sample == id.sample {
        assert arms[i] == arms[..n][i];
      }
      var pair := [Call(arms[n].sample, ProducerA), Call(arms[n].sample, ResponderB)];
      if id.sample == arms[n].sample {
        assert id == if id.actor.ProducerA? then pair[0] else pair[1];
      }
    }
  }

  lemma {:induction false} CallIdsDistinct(arms: seq<ArmPlan>)
    requires DistinctBy(SampleOf, arms)
    ensures Distinct(CallIds(arms))
  {
    if arms != [] {
      var n := |arms| - 1;
      var head, pair := CallIds(arms[..n]), [Call(arms[n].sample, ProducerA), Call(arms[n].sample, ResponderB)];
      CallIdsDistinct(arms[..n]);
      forall k | 0 <= k < |head| ensures head[k] !in pair {
        CallIdsMembers(arms[..n], head[k]);
        var i :| 0 <= i < n && arms[..n][i].sample == head[k].sample;
        assert SampleOf(arms[i]) != SampleOf(arms[n]);
      }
    }
  }

  /** In a valid manifest every scheduled call belongs to an arm, and no call is scheduled twice. */
  lemma ScheduleIsPlanned(m: Manifest)
    requires ValidManifest(m)
    ensures Distinct(m.schedule) && |m.schedule| == 2 * |m.arms|
    ensures forall k :: 0 <= k < |m.schedule| ==> m.schedule[k].sample in ArmsBySample(m)
  {
    CallIdsDistinct(m.arms);
    PermutationKeepsDistinct(CallIds(m.arms), m.schedule);
    assert |m.schedule| == |multiset(m.schedule)| == |CallIds(m.arms)|;
    forall k | 0 <= k < |m.schedule| ensures m.schedule[k].sample in ArmsBySample(m) {
      assert m.schedule[k] in multiset(CallIds(m.arms));
      CallIdsMembers(m.arms, m.schedule[k]);
      IndexDomain(SampleOf, m.arms, m.schedule[k].sample);
    }
    if m.arms == [] {
    } else {
      CallIdsMembers(m.arms, Call(m.arms[0].sample, ProducerA));
    }
  }

  function ArmFor(m: Manifest, id: CallId): ArmPlan
    requires id.sample in ArmsBySample(m)
  {
    ArmsBySample(m)[id.sample]
  }

  lemma ArmForSample(m: Manifest, id: CallId)
    requires id.sample in ArmsBySample(m)
    ensures ArmFor(m, id).sample == id.sample && ArmFor(m, id) in m.arms
  {
    IndexDomain(SampleOf, m.arms, id.sample);
  }

  /** Responders are scheduled in strictly increasing rank. */
  ghost predicate RanksFollowSchedule(m: Manifest)
    requires forall k :: 0 <= k < |m.schedule| ==> m.schedule[k].sample in ArmsBySample(m)
  {
    forall i, j :: 0 <= i < j < |m.schedule| && m.schedule[i].actor.ResponderB? && m.schedule[j].actor.ResponderB? ==>
      ArmFor(m, m.schedule[i]).rank < ArmFor(m, m.schedule[j]).rank
  }

  // The builder

  /** What the responder is shown: the share, its neutral stand-in, or nothing. */
  function DeliveredText(item: Item, arm: Arm): Option<Text> {
    match arm
    case IntactExchange => Some(ArtifactText(item))
    case MatchedNeutral => Some(NeutralText(ArtifactText(item)))
    case PrivateAOnly => Some(ArtifactText(item))
    case PrivateBOnly => None
    case FullInformation => None
  }

  /** The panel's frozen inputs: heads and tails of the requests, and ranks of the samples. */
  datatype Frozen = Frozen(panel: Text, items: seq<Item>, providerConfig: Text, frame: CallId -> (Text, Text), rank: SampleId -> nat)

  /** The payload of a call, its artifact's text set between head and tail. */
  function Framed(frozen: Frozen, id: CallId, artifact: Option<Text>): Payload {
    Payload(frozen.frame(id).0, artifact, frozen.frame(id).1)
  }

  function BuildArm(frozen: Frozen, item: Item, replicate: nat, arm: Arm): ArmPlan {
    var sample := Sample(frozen.panel, item.id, replicate, arm);
    ArmPlan(sample, item.template, PairKey(sample, frozen.providerConfig), frozen.rank(sample),
            Framed(frozen, Call(sample, ProducerA), None),
            Framed(frozen, Call(sample, ResponderB), DeliveredText(item, arm)))
  }

  /** `for item in items for replicate in range(4) for arm in ARMS`, by position. */
  function BuildArms(frozen: Frozen): (arms: seq<ArmPlan>)
    ensures |arms| == 20 * |frozen.items|
    ensures forall k :: 0 <= k < |arms| ==>
      arms[k] == BuildArm(frozen, frozen.items[k / 20], k % 20 / 5, ARMS[k % 5])
  {
    seq(20 * |frozen.items|, k requires 0 <= k < 20 * |frozen.items| =>
      BuildArm(frozen, frozen.items[k / 20], k % 20 / 5, ARMS[k % 5]))
  }

  function ArmLabel(arm: Arm): Text {
    match arm
    case IntactExchange => [105, 110, 116, 97, 99, 116, 95, 101, 120, 99, 104, 97, 110, 103, 101]
    case MatchedNeutral => [109, 97, 116, 99, 104, 101, 100, 95, 110, 101, 117, 116, 114, 97, 108, 95, 97, 114, 116, 105, 102, 97, 99, 116]
    case PrivateAOnly => [112, 114, 105, 118, 97, 116, 101, 95, 97, 95, 111, 110, 108, 121]
    case PrivateBOnly => [112, 114, 105, 118, 97, 116, 101, 95, 98, 95, 111, 110, 108, 121]
    case FullInformation => [102, 117, 108, 108, 95, 105, 110, 102, 111, 114, 109, 97, 116, 105, 111, 110]
  }

  /** The sample id as text, `panel:item:rN:arm`. */
  function SampleLabel(s: SampleId): Text {
    s.panel + [58] + s.item + [58, 114] + Decimal(s.replicate) + [58] + ArmLabel(s.arm)
  }

  predicate ByRank(a: ArmPlan, b: ArmPlan) {
    a.rank < b.rank || (a.rank == b.rank && TextLeq(SampleLabel(a.sample), SampleLabel(b.sample)))
  }

  lemma ByRankIsTotal()
    ensures TotalPreorder(ByRank)
  {
    forall a, b ensures ByRank(a, b) || ByRank(b, a) {
      TextLeqTotal(SampleLabel(a.sample), SampleLabel(b.sample));
    }
    forall a, b, c | ByRank(a, b) && ByRank(b, c) ensures ByRank(a, c) {
      if a.rank == b.rank == c.rank {
        TextLeqTransitive(SampleLabel(a.sample), SampleLabel(b.sample), SampleLabel(c.sample));
      }
    }
  }

  function Build(frozen: Frozen, digest: Text): Manifest {
    var arms := BuildArms(frozen);
    Manifest(digest, frozen.panel, frozen.items, frozen.providerConfig, arms, CallIds(Sort(ByRank, arms)))
  }

  lemma ByTwenty(q: nat, r: nat)
    requires r < 20
    ensures (20 * q + r) / 20 == q && (20 * q + r) % 20 == r
  {
  }

  lemma ByFive(q: nat, r: nat)
    requires r < 5
    ensures (5 * q + r) / 5 == q && (5 * q + r) % 5 == r
  {
  }

  /** The item, replicate and arm of a position spell it out. */
  lemma Digits(k: nat)
    ensures k == 20 * (k / 20) + 5 * (k % 20 / 5) + k % 5
  {
    var q, r := k / 20, k % 20;
    var s, a := r / 5, r % 5;
    assert k == 5 * (4 * q + s) + a;
    ByFive(4 * q + s, a);
  }

  lemma PositionDigits(j: nat, k: nat)
    requires j != k
    ensures j / 20 != k / 20 || j % 20 / 5 != k % 20 / 5 || j % 5 != k % 5
  {
    Digits(j);
    Digits(k);
  }

  lemma ArmsDiffer(a: nat, b: nat)
    requires a < 5 && b < 5 && a != b
    ensures ARMS[a] != ARMS[b]
  {
  }

  lemma BuiltSamplesDiffer(frozen: Frozen, j: nat, k: nat)
    requires DistinctBy(ItemId, frozen.items) && j < k < 20 * |frozen.items|
    ensures BuildArms(frozen)[j].sample != BuildArms(frozen)[k].sample
  {
    PositionDigits(j, k);
    if j / 20 != k / 20 {
      DistinctKeys(ItemId, frozen.items, j / 20, k / 20);
    } else if j % 5 != k % 5 {
      ArmsDiffer(j % 5, k % 5);
    }
  }

  lemma {:induction false} CallIdsPermutation(a: seq<ArmPlan>, b: seq<ArmPlan>)
    requires multiset(a) == multiset(b) && DistinctBy(SampleOf, a) && DistinctBy(SampleOf, b)
    ensures multiset(CallIds(a)) == multiset(CallIds(b))
  {
    CallIdsDistinct(a);
    CallIdsDistinct(b);
    forall id ensures id in CallIds(a) <==> id in CallIds(b) {
      CallIdsMembers(a, id);
      CallIdsMembers(b, id);
      if i :| 0 <= i < |a| && a[i].sample == id.sample {
        assert a[i] in multiset(b);
        var j :| 0 <= j < |b| && b[j] == a[i];
      }
      if i :| 0 <= i < |b| && b[i].sample == id.sample {
        assert b[i] in multiset(a);
        var j :| 0 <= j < |a| && a[j] == b[i];
      }
    }
    SameMembersSameMultiset(CallIds(a), CallIds(b));
  }

  /** Position by position: each arm contributes its producer and then its responder. */
  lemma {:induction false} CallIdsAt(arms: seq<ArmPlan>, i: nat)
    requires i < |arms|
    ensures |CallIds(arms)| == 2 * |arms|
    ensures CallIds(arms)[2 * i] == Call(arms[i].sample, ProducerA)
    ensures CallIds(arms)[2 * i + 1] == Call(arms[i].sample, ResponderB)
  {
    var n := |arms| - 1;
    if n > 0 {
      CallIdsAt(arms[..n], if i < n then i else 0);
    }
  }

  lemma BuiltArmsAreDistinct(frozen: Frozen)
    requires DistinctBy(ItemId, frozen.items)
    ensures DistinctBy(SampleOf, BuildArms(frozen))
    ensures DistinctBy(SampleOf, Sort(ByRank, BuildArms(frozen)))
    ensures multiset(Sort(ByRank, BuildArms(frozen))) == multiset(BuildArms(frozen))
  {
    var arms := BuildArms(frozen);
    forall i, j | 0 <= i < j < |arms| ensures SampleOf(arms[i]) != SampleOf(arms[j]) {
      BuiltSamplesDiffer(frozen, i, j);
    }
    SortPermutes(ByRank, arms);
    PermutationKeepsDistinctBy(SampleOf, arms, Sort(ByRank, arms));
  }

  lemma ArmPosition(arm: Arm) returns (k: nat)
    ensures k < 5 && ARMS[k] == arm
  {
    k := match arm
      case IntactExchange => 0
      case MatchedNeutral => 1
      case PrivateAOnly => 2
      case PrivateBOnly => 3
      case FullInformation => 4;
  }

  /** The builder covers every item, replicate and arm exactly once, and schedules exactly its own calls. */
  lemma BuiltManifestIsValid(frozen: Frozen, digest: Text)
    requires frozen.items != [] && DistinctBy(ItemId, frozen.items)
    ensures ValidManifest(Build(frozen, digest))
  {
    var m := Build(frozen, digest);
    BuiltArmsAreDistinct(frozen);
    CallIdsPermutation(Sort(ByRank, m.arms), m.arms);
    forall i | 0 <= i < |m.arms| ensures Planned(m, m.arms[i].sample) {
      BuiltArmIsPlanned(frozen, digest, i);
    }
    forall sample | Planned(m, sample) ensures sample in ArmsBySample(m) {
      PlannedIsBuilt(frozen, digest, sample);
    }
  }

  lemma BuiltArmIsPlanned(frozen: Frozen, digest: Text, k: nat)
    requires k < 20 * |frozen.items|
    ensures Planned(Build(frozen, digest), BuildArms(frozen)[k].sample)
  {
    assert frozen.items[k / 20].id == BuildArms(frozen)[k].sample.item;
  }

  lemma PlannedIsBuilt(frozen: Frozen, digest: Text, sample: SampleId)
    requires DistinctBy(SampleOf, BuildArms(frozen)) && Planned(Build(frozen, digest), sample)
    ensures sample in ArmsBySample(Build(frozen, digest))
  {
    var i :| 0 <= i < |frozen.items| && frozen.items[i].id == sample.item;
    var a := ArmPosition(sample.arm);
    BuiltArmAt(frozen, i, sample.replicate, a);
    IndexContent(SampleOf, BuildArms(frozen), 20 * i + 5 * sample.replicate + a);
  }

  lemma PositionOf(i: nat, replicate: nat, a: nat)
    requires replicate < REPLICATES && a < 5
    ensures (20 * i + 5 * replicate + a) / 20 == i && (20 * i + 5 * replicate + a) % 20 / 5 == replicate
    ensures (20 * i + 5 * replicate + a) % 5 == a
  {
    ByTwenty(i, 5 * replicate + a);
    ByFive(replicate, a);
    ByFive(4 * i + replicate, a);
    assert 20 * i + 5 * replicate + a == 20 * i + (5 * replicate + a) == 5 * (4 * i + replicate) + a;
  }

  lemma BuiltArmAt(frozen: Frozen, i: nat, replicate: nat, a: nat)
    requires i < |frozen.items| && replicate < REPLICATES && a < 5
    ensures 20 * i + 5 * replicate + a < |BuildArms(frozen)|
    ensures BuildArms(frozen)[20 * i + 5 * replicate + a] == BuildArm(frozen, frozen.items[i], replicate, ARMS[a])
  {
    var k: nat := 20 * i + 5 * replicate + a;
    assert k < 20 * |frozen.items|;
    PositionOf(i, replicate, a);
    assert BuildArms(frozen)[k] == BuildArm(frozen, frozen.items[k / 20], k % 20 / 5, ARMS[k % 5]);
  }

  lemma CallIdAt(arms: seq<ArmPlan>, k: nat)
    requires k < |CallIds(arms)|
    ensures |CallIds(arms)| == 2 * |arms|
    ensures CallIds(arms)[k] == Call(arms[k / 2].sample, if k % 2 == 0 then ProducerA else ResponderB)
  {
    if arms != [] {
      CallIdsAt(arms, 0);
      CallIdsAt(arms, k / 2);
    }
  }

  lemma ProducerPrecedes(arms: seq<ArmPlan>, k: nat)
    requires k < |CallIds(arms)| && CallIds(arms)[k].actor.ResponderB?
    ensures k > 0 && CallIds(arms)[k - 1] == Call(CallIds(arms)[k].sample, ProducerA)
  {
    CallIdAt(arms, k);
    CallIdAt(arms, k - 1);
  }

  /** Every responder is scheduled right after its own producer. */
  lemma BuiltProducersComeFirst(frozen: Frozen, digest: Text, k: nat)
    requires k < |Build(frozen, digest).schedule| && Build(frozen, digest).schedule[k].actor.ResponderB?
    ensures k > 0
    ensures Build(frozen, digest).schedule[k - 1] == Call(Build(frozen, digest).schedule[k].sample, ProducerA)
  {
    ProducerPrecedes(Sort(ByRank, BuildArms(frozen)), k);
  }

  /** Pairwise different ranks put the responders in strictly rising rank. */
  lemma BuiltScheduleFollowsRanks(frozen: Frozen, digest: Text)
    requires frozen.items != [] && DistinctBy(ItemId, frozen.items) && DistinctBy(RankOf, BuildArms(frozen))
    ensures forall k :: 0 <= k < |Build(frozen, digest).schedule| ==>
      Build(frozen, digest).schedule[k].sample in ArmsBySample(Build(frozen, digest))
    ensures RanksFollowSchedule(Build(frozen, digest))
  {
    var m := Build(frozen, digest);
    BuiltManifestIsValid(frozen, digest);
    ScheduleIsPlanned(m);
    BuiltArmsAreDistinct(frozen);
    forall i, j | 0 <= i < j < |m.schedule| && m.schedule[i].actor.ResponderB? && m.schedule[j].actor.ResponderB?
      ensures ArmFor(m, m.schedule[i]).rank < ArmFor(m, m.schedule[j]).rank
    {
      RespondersRise(frozen, digest, i, j);
    }
  }

  lemma RespondersRise(frozen: Frozen, digest: Text, i: nat, j: nat)
    requires DistinctBy(SampleOf, BuildArms(frozen)) && DistinctBy(RankOf, BuildArms(frozen))
    requires DistinctBy(SampleOf, Sort(ByRank, BuildArms(frozen)))
    requires multiset(Sort(ByRank, BuildArms(frozen))) == multiset(BuildArms(frozen))
    requires i < j < |Build(frozen, digest).schedule|
    requires Build(frozen, digest).schedule[i].actor.ResponderB? && Build(frozen, digest).schedule[j].actor.ResponderB?
    requires Build(frozen, digest).schedule[i].sample in ArmsBySample(Build(frozen, digest))
    requires Build(frozen, digest).schedule[j].sample in ArmsBySample(Build(frozen, digest))
    ensures ArmFor(Build(frozen, digest), Build(frozen, digest).schedule[i]).rank
          < ArmFor(Build(frozen, digest), Build(frozen, digest).schedule[j]).rank
  {
    var m := Build(frozen, digest);
    var sorted := Sort(ByRank, m.arms);
    ScheduledArm(m, sorted, i);
    ScheduledArm(m, sorted, j);
    ByRankIsTotal();
    SortSorts(ByRank, m.arms);
    assert ByRank(sorted[i / 2], sorted[j / 2]);
    RanksDiffer(m.arms, sorted, i / 2, j / 2);
  }

  lemma ScheduledArm(m: Manifest, sorted: seq<ArmPlan>, k: nat)
    requires DistinctBy(SampleOf, m.arms) && multiset(sorted) == multiset(m.arms) && m.schedule == CallIds(sorted)
    requires k < |m.schedule| && m.schedule[k].sample in ArmsBySample(m)
    ensures k / 2 < |sorted| && ArmFor(m, m.schedule[k]) == sorted[k / 2]
    ensures m.schedule[k].actor.ResponderB? <==> k % 2 == 1
  {
    CallIdAt(sorted, k);
    SortedArmFor(m, sorted, k / 2, m.schedule[k]);
  }

  lemma SortedArmFor(m: Manifest, sorted: seq<ArmPlan>, k: nat, id: CallId)
    requires DistinctBy(SampleOf, m.arms) && multiset(sorted) == multiset(m.arms) && k < |sorted|
    requires id.sample == sorted[k].sample && id.sample in ArmsBySample(m)
    ensures ArmFor(m, id) == sorted[k]
  {
    assert sorted[k] in multiset(m.arms);
    var i :| 0 <= i < |m.arms| && m.arms[i] == sorted[k];
    IndexContent(SampleOf, m.arms, i);
  }

  lemma RanksDiffer(arms: seq<ArmPlan>, sorted: seq<ArmPlan>, i: nat, j: nat)
    requires multiset(sorted) == multiset(arms) && i < j < |sorted|
    requires DistinctBy(RankOf, arms)
    ensures sorted[i].rank != sorted[j].rank
  {
    PermutationKeepsDistinctBy(RankOf, arms, sorted);
    DistinctKeys(RankOf, sorted, i, j);
  }
}
