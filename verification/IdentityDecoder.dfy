/**
 A decoder for the canonical encoding. It reads every encoding back to a value that is the same as the
 one encoded, so nothing of a value is lost in its bytes.
 */
module IdentityDecoder {
  import opened Wrappers
  import opened Scalars
  import opened Sorting
  import opened Identity
  import opened IdentityExactness

  // Numerals and texts

  /** The number that the digits spell, most significant first. */
  function DigitsValue(radix: Radix, digits: seq<nat>): nat {
    if digits == [] then 0
    else DigitsValue(radix, digits[..|digits| - 1]) * radix.Size() + digits[|digits| - 1]
  }

  lemma {:induction false} DigitsReadBack(radix: Radix, n: nat, width: nat)
    requires Fits(radix, n, width)
    ensures DigitsValue(radix, FixedWidth(radix, n, width)) == n
  {
    if width > 0 {
      FixedWidthLastDigit(radix, n, width);
      DigitsReadBack(radix, radix.High(n), width - 1);
      assert n == radix.High(n) * radix.Size() + radix.Low(n);
    }
  }

  function ReadLength(bytes: Bytes): nat {
    DigitsValue(Base256, seq(|bytes|, i requires 0 <= i < |bytes| => bytes[i] as nat))
  }

  lemma LengthReadsBack(n: nat)
    requires n < LENGTH_LIMIT
    ensures ReadLength(BigEndian8(n)) == n
  {
    var bytes, digits := BigEndian8(n), FixedWidth(Base256, n, 8);
    assert seq(|bytes|, i requires 0 <= i < |bytes| => bytes[i] as nat) == digits;
    FitsEightBytes(n);
    DigitsReadBack(Base256, n, 8);
  }

  function ReadSigned(bytes: Bytes): int {
    if bytes != [] && bytes[0] == 45 then -DecimalValue(bytes[1..]) else DecimalValue(bytes)
  }

  lemma SignedReadsBack(i: int)
    ensures ReadSigned(Signed(i)) == i
  {
    DecimalRoundTrip(if i < 0 then -i else i);
    assert i < 0 ==> Signed(i)[1..] == Decimal(-i);
  }

  function ReadText(bytes: Bytes): Option<Text> {
    if bytes == [] then Some([])
    else if |bytes| < CharWidth(bytes[0]) then None
    else
      var width := CharWidth(bytes[0]);
      var c := CharValue(bytes[..width]);
      var rest := ReadText(bytes[width..]);
      if 0 <= c < 0x110000 && rest.Some? then Some([c] + rest.value) else None
  }

  lemma {:induction false} TextReadsBack(t: Text)
    ensures ReadText(Utf8(t)) == Some(t)
  {
    if t != [] {
      var x, rest := Utf8Char(t[0]), Utf8(t[1..]);
      Utf8CharReadsBack(t[0]);
      assert (x + rest)[0] == x[0];
      assert (x + rest)[..|x|] == x && (x + rest)[|x|..] == rest;
      TextReadsBack(t[1..]);
      assert t == [t[0]] + t[1..];
    }
  }

  // Floats

  function HexDigitValue(b: Byte): nat {
    if 48 <= b < 58 then b - 48 else if 97 <= b < 103 then b - 87 else 0
  }

  function ReadFraction(bytes: Bytes): Option<Fraction> {
    var n := DigitsValue(Hexadecimal, seq(|bytes|, i requires 0 <= i < |bytes| => HexDigitValue(bytes[i])));
    if n < 0x10_0000_0000_0000 then Some(n) else None
  }

  lemma FractionReadsBack(n: Fraction)
    ensures ReadFraction(HexFraction(n)) == Some(n)
  {
    var bytes, digits := HexFraction(n), FixedWidth(Hexadecimal, n, 13);
    assert seq(|bytes|, i requires 0 <= i < |bytes| => HexDigitValue(bytes[i])) == digits;
    FitsThirteenHexDigits(n);
    DigitsReadBack(Hexadecimal, n, 13);
  }

  function ReadExponent(bytes: Bytes): int {
    if bytes != [] && bytes[0] == 43 then ReadSigned(bytes[1..]) else ReadSigned(bytes)
  }

  lemma ExponentReadsBack(e: int)
    ensures ReadExponent(Exponent(e)) == e
  {
    SignedReadsBack(e);
    assert e >= 0 ==> Exponent(e)[1..] == Signed(e);
  }

  /** Reads the text of a float without its sign. */
  function ReadUnsigned(negative: bool, body: Bytes): Option<Double> {
    if body == [110, 97, 110] then Some(NotANumber(0))
    else if body == [105, 110, 102] then Some(Infinity(negative))
    else if body == [48, 120, 48, 46, 48, 112, 43, 48] then Some(Zero(negative))
    else if |body| < 18 then None
    else
      var fraction := ReadFraction(body[4..17]);
      if fraction.None? then None
      else if body[2] == 48 then Some(Subnormal(negative, fraction.value))
      else Some(Normal(negative, fraction.value, ReadExponent(body[18..])))
  }

  function ReadFloat(bytes: Bytes): Option<Double> {
    if bytes != [] && bytes[0] == 45 then ReadUnsigned(true, bytes[1..]) else ReadUnsigned(false, bytes)
  }

  lemma BodyReadsBack(lead: Bytes, n: Fraction, e: int)
    requires |lead| == 4
    ensures var body := lead + HexFraction(n) + [112] + Exponent(e);
      |body| >= 18 && body[2] == lead[2] && ReadFraction(body[4..17]) == Some(n) && ReadExponent(body[18..]) == e
  {
    var body := lead + HexFraction(n) + [112] + Exponent(e);
    assert body[4..17] == HexFraction(n) && body[18..] == Exponent(e);
    FractionReadsBack(n);
    ExponentReadsBack(e);
  }

  lemma UnsignedReadsBack(f: Double)
    ensures ReadUnsigned(Negative(f), Unsigned(f)) == Some(if f.NotANumber? then NotANumber(0) else f)
  {
    match f
    case Subnormal(_, n) => BodyReadsBack([48, 120, 48, 46], n, -1022);
    case Normal(_, n, e) => BodyReadsBack([48, 120, 49, 46], n, e);
    case _ =>
  }

  /** A float is read back, not-a-number up to its payload. */
  lemma FloatReadsBack(f: Double)
    ensures ReadFloat(HexText(f)).Some? && HexText(ReadFloat(HexText(f)).value) == HexText(f)
  {
    HexTextSign(f);
    UnsignedReadsBack(f);
    if Negative(f) {
      assert HexText(f)[1..] == Unsigned(f);
    } else {
      assert HexText(f) == [] + Unsigned(f) == Unsigned(f);
    }
  }

  // Frames

  datatype Taken = Taken(tag: Byte, payload: Bytes, rest: Bytes)

  /** Takes the first frame off. */
  function TakeFrame(bytes: Bytes): (taken: Option<Taken>)
    ensures taken.Some? ==> |taken.value.payload| < |bytes| && |taken.value.rest| < |bytes|
  {
    if |bytes| < 9 then None
    else
      var length := ReadLength(bytes[1..9]);
      if |bytes| - 9 < length then None
      else Some(Taken(bytes[0], bytes[9..9 + length], bytes[9 + length..]))
  }

  lemma FrameIsTaken(tag: Byte, payload: Bytes, rest: Bytes)
    requires Frame(tag, payload).Ok?
    ensures TakeFrame(Frame(tag, payload).value + rest) == Some(Taken(tag, payload, rest))
  {
    var bytes := Frame(tag, payload).value + rest;
    assert bytes[1..9] == BigEndian8(|payload|);
    LengthReadsBack(|payload|);
    assert bytes[9..9 + |payload|] == payload && bytes[9 + |payload|..] == rest;
  }

  // Values

  /** Reads a value from one whole frame. */
  function Decode(bytes: Bytes): Option<Value>
    decreases |bytes|
  {
    var taken := TakeFrame(bytes);
    if taken.None? || taken.value.rest != [] then None else DecodePayload(taken.value.tag, taken.value.payload)
  }

  function DecodePayload(tag: Byte, payload: Bytes): Option<Value>
    decreases |payload|
  {
    if tag == 110 then (if payload == [] then Some(Null) else None)
    else if tag == 98 then (if payload == [49] then Some(Bool(true)) else if payload == [48] then Some(Bool(false)) else None)
    else if tag == 105 then Some(Int(ReadSigned(payload)))
    else if tag == 102 then (var f := ReadFloat(payload); if f.Some? then Some(Float(f.value)) else None)
    else if tag == 115 then (var t := ReadText(payload); if t.Some? then Some(Str(t.value)) else None)
    else if tag == 121 then Some(Blob(payload))
    else if tag == 112 then (var t := ReadText(payload); if t.Some? then Some(PurePath(t.value)) else None)
    else if tag == 101 then DecodeEnum(payload)
    else if tag in {108, 116, 117, 114} then
      if |payload| < 8 then None
      else
        var items := DecodeItems(ReadLength(payload[..8]), payload[8..]);
        if items.Some? then Some(Container(tag, items.value)) else None
    else if tag == 109 then
      if |payload| < 8 then None
      else
        var entries := DecodeEntries(ReadLength(payload[..8]), payload[8..]);
        if entries.Some? then Some(Map(entries.value)) else None
    else None
  }

  function Container(tag: Byte, items: seq<Value>): Value {
    if tag == 108 then List(items) else if tag == 116 then Tuple(items)
    else if tag == 117 then Set(items) else FrozenSet(items)
  }

  function DecodeEnum(payload: Bytes): Option<Value>
    decreases |payload|, 0
  {
    var taken := TakeFrame(payload);
    if taken.None? || taken.value.tag != CLASS_TAG then None
    else
      var name, inner := ReadText(taken.value.payload), Decode(taken.value.rest);
      if name.Some? && inner.Some? then Some(Enum(name.value, inner.value)) else None
  }

  /** Reads `n` frames one after the other, to the end. */
  function DecodeItems(n: nat, bytes: Bytes): Option<seq<Value>>
    decreases |bytes|
  {
    if n == 0 then (if bytes == [] then Some([]) else None)
    else
      var taken := TakeFrame(bytes);
      if taken.None? then None
      else
        var first := DecodePayload(taken.value.tag, taken.value.payload);
        var rest := DecodeItems(n - 1, taken.value.rest);
        if first.Some? && rest.Some? then Some([first.value] + rest.value) else None
  }

  function DecodeEntries(n: nat, bytes: Bytes): Option<seq<Entry>>
    decreases |bytes|
  {
    if n == 0 then (if bytes == [] then Some([]) else None)
    else
      var key := TakeFrame(bytes);
      if key.None? then None
      else
        var item := TakeFrame(key.value.rest);
        if item.None? then None
        else
          var k := DecodePayload(key.value.tag, key.value.payload);
          var v := DecodePayload(item.value.tag, item.value.payload);
          var rest := DecodeEntries(n - 1, item.value.rest);
          if k.Some? && v.Some? && rest.Some? then Some([Entry(k.value, v.value)] + rest.value) else None
  }

  // Reading back

  /** The bytes are decoded to a value that encodes to them. */
  ghost predicate ReadsBack(bytes: Bytes) {
    Decode(bytes).Some? && Encode(Decode(bytes).value) == Ok(bytes)
  }

  lemma FrameDecodes(x: Bytes, rest: Bytes)
    requires IsFrame(x)
    ensures TakeFrame(x + rest).Some? && TakeFrame(x + rest).value.rest == rest
    ensures DecodePayload(TakeFrame(x + rest).value.tag, TakeFrame(x + rest).value.payload) == Decode(x)
  {
    var t: Byte, p: Bytes :| Frame(t, p) == Ok(x);
    FrameIsTaken(t, p, rest);
    FrameIsTaken(t, p, []);
    assert x + [] == x;
  }

  ghost predicate AllReadBack(parts: seq<Bytes>) {
    forall i :: 0 <= i < |parts| ==> IsFrame(parts[i]) && ReadsBack(parts[i])
  }

  lemma FirstItemDecodes(x: Bytes, n: nat, rest: Bytes)
    requires IsFrame(x) && ReadsBack(x) && DecodeItems(n, rest).Some?
    ensures DecodeItems(n + 1, x + rest) == Some([Decode(x).value] + DecodeItems(n, rest).value)
  {
    FrameDecodes(x, rest);
  }

  lemma FirstItemEncodes(first: Value, items: seq<Value>, x: Bytes, parts: seq<Bytes>)
    requires Encode(first) == Ok(x) && EncodeAll(items) == Ok(parts)
    ensures EncodeAll([first] + items) == Ok([x] + parts)
  {
    assert ([first] + items)[1..] == items;
  }

  lemma {:induction false} ItemsReadBack(parts: seq<Bytes>)
    requires AllReadBack(parts)
    ensures DecodeItems(|parts|, Join(parts)).Some?
    ensures EncodeAll(DecodeItems(|parts|, Join(parts)).value) == Ok(parts)
  {
    if parts != [] {
      var rest := parts[1..];
      ItemsReadBack(rest);
      FirstItemDecodes(parts[0], |rest|, Join(rest));
      FirstItemEncodes(Decode(parts[0]).value, DecodeItems(|rest|, Join(rest)).value, parts[0], rest);
      assert parts == [parts[0]] + rest;
    }
  }

  ghost predicate AllPairsReadBack(parts: seq<(Bytes, Bytes)>) {
    forall i :: 0 <= i < |parts| ==>
      IsFrame(parts[i].0) && ReadsBack(parts[i].0) && IsFrame(parts[i].1) && ReadsBack(parts[i].1)
  }

  lemma FirstEntryDecodes(key: Bytes, item: Bytes, n: nat, rest: Bytes)
    requires IsFrame(key) && ReadsBack(key) && IsFrame(item) && ReadsBack(item) && DecodeEntries(n, rest).Some?
    ensures DecodeEntries(n + 1, key + (item + rest))
      == Some([Entry(Decode(key).value, Decode(item).value)] + DecodeEntries(n, rest).value)
  {
    FrameDecodes(key, item + rest);
    FrameDecodes(item, rest);
  }

  lemma FirstEntryEncodes(first: Entry, entries: seq<Entry>, key: Bytes, item: Bytes, parts: seq<(Bytes, Bytes)>)
    requires Encode(first.key) == Ok(key) && Encode(first.item) == Ok(item) && EncodeEntries(entries) == Ok(parts)
    ensures EncodeEntries([first] + entries) == Ok([(key, item)] + parts)
  {
    assert ([first] + entries)[1..] == entries;
  }

  lemma {:induction false} EntriesReadBack(parts: seq<(Bytes, Bytes)>)
    requires AllPairsReadBack(parts)
    ensures DecodeEntries(|parts|, JoinPairs(parts)).Some?
    ensures EncodeEntries(DecodeEntries(|parts|, JoinPairs(parts)).value) == Ok(parts)
  {
    if parts != [] {
      var key, item, rest := parts[0].0, parts[0].1, parts[1..];
      EntriesReadBack(rest);
      FirstEntryDecodes(key, item, |rest|, JoinPairs(rest));
      FirstEntryEncodes(Entry(Decode(key).value, Decode(item).value), DecodeEntries(|rest|, JoinPairs(rest)).value,
                        key, item, rest);
      assert parts == [parts[0]] + rest;
    }
  }

  lemma SortAgain(parts: seq<Bytes>)
    ensures Sort(Leq, Sort(Leq, parts)) == Sort(Leq, parts)
  {
    SortPermutes(Leq, parts);
    LeqIsTotalOrder();
    SortForgetsOrder(Leq, Sort(Leq, parts), parts);
  }

  lemma SortPairsAgain(parts: seq<(Bytes, Bytes)>)
    ensures Sort(PairLeq, Sort(PairLeq, parts)) == Sort(PairLeq, parts)
  {
    SortPermutes(PairLeq, parts);
    PairLeqIsTotalOrder();
    SortForgetsOrder(PairLeq, Sort(PairLeq, parts), parts);
  }

  /** The payload is decoded, under its tag, to a value that has both. */
  ghost predicate PayloadReadsBack(tag: Byte, payload: Bytes) {
    var v := DecodePayload(tag, payload);
    v.Some? && Plain(v.value) && Tag(v.value) == tag && Payload(v.value) == Ok(payload)
  }

  lemma FrameReadsBack(tag: Byte, payload: Bytes)
    requires Frame(tag, payload).Ok? && PayloadReadsBack(tag, payload)
    ensures ReadsBack(Frame(tag, payload).value)
  {
    FrameIsTaken(tag, payload, []);
    assert Frame(tag, payload).value + [] == Frame(tag, payload).value;
  }

  lemma CountReadsBack(n: nat, rest: Bytes)
    requires n < LENGTH_LIMIT
    ensures var payload := BigEndian8(n) + rest;
      |payload| >= 8 && ReadLength(payload[..8]) == n && payload[8..] == rest
  {
    var payload := BigEndian8(n) + rest;
    assert payload[..8] == BigEndian8(n) && payload[8..] == rest;
    LengthReadsBack(n);
  }

  /** The members of a container in the order in which they are written. */
  function Written(tag: Byte, parts: seq<Bytes>): seq<Bytes> {
    if tag == 108 || tag == 116 then parts else Sort(Leq, parts)
  }

  lemma ContainerPayload(tag: Byte, items: seq<Value>, parts: seq<Bytes>)
    requires tag in {108, 116, 117, 114} && |parts| < LENGTH_LIMIT
    requires EncodeAll(items) == Ok(parts) && Written(tag, parts) == parts
    ensures var v := Container(tag, items);
      Plain(v) && Tag(v) == tag && Payload(v) == Ok(BigEndian8(|parts|) + Join(parts))
  {
  }

  lemma ContainerDecodes(tag: Byte, n: nat, rest: Bytes)
    requires tag in {108, 116, 117, 114} && n < LENGTH_LIMIT && DecodeItems(n, rest).Some?
    ensures DecodePayload(tag, BigEndian8(n) + rest) == Some(Container(tag, DecodeItems(n, rest).value))
  {
    CountReadsBack(n, rest);
  }

  lemma ContainerReadsBack(tag: Byte, parts: seq<Bytes>)
    requires tag in {108, 116, 117, 114} && |parts| < LENGTH_LIMIT && AllReadBack(parts)
    requires Written(tag, parts) == parts
    ensures PayloadReadsBack(tag, BigEndian8(|parts|) + Join(parts))
  {
    ItemsReadBack(parts);
    ContainerDecodes(tag, |parts|, Join(parts));
    ContainerPayload(tag, DecodeItems(|parts|, Join(parts)).value, parts);
  }

  lemma WrittenReadsBack(tag: Byte, parts: seq<Bytes>)
    requires AllReadBack(parts)
    ensures AllReadBack(Written(tag, parts)) && |Written(tag, parts)| == |parts|
    ensures Written(tag, Written(tag, parts)) == Written(tag, parts)
  {
    var sorted := Sort(Leq, parts);
    SortPermutes(Leq, parts);
    SortAgain(parts);
    forall i | 0 <= i < |sorted| ensures IsFrame(sorted[i]) && ReadsBack(sorted[i]) {
      assert sorted[i] in multiset(sorted);
      assert sorted[i] in parts;
    }
  }

  lemma SortedPairsReadBack(parts: seq<(Bytes, Bytes)>)
    requires AllPairsReadBack(parts)
    ensures AllPairsReadBack(Sort(PairLeq, parts)) && |Sort(PairLeq, parts)| == |parts|
  {
    var sorted := Sort(PairLeq, parts);
    SortPermutes(PairLeq, parts);
    forall i | 0 <= i < |sorted|
      ensures IsFrame(sorted[i].0) && ReadsBack(sorted[i].0) && IsFrame(sorted[i].1) && ReadsBack(sorted[i].1)
    {
      assert sorted[i] in multiset(sorted);
      assert sorted[i] in parts;
    }
  }

  lemma MapPayloadOf(entries: seq<Entry>, parts: seq<(Bytes, Bytes)>)
    requires |parts| < LENGTH_LIMIT && EncodeEntries(entries) == Ok(parts) && Sort(PairLeq, parts) == parts
    ensures Payload(Map(entries)) == Ok(BigEndian8(|parts|) + JoinPairs(parts))
  {
  }

  lemma MapDecodes(n: nat, rest: Bytes)
    requires n < LENGTH_LIMIT && DecodeEntries(n, rest).Some?
    ensures DecodePayload(109, BigEndian8(n) + rest) == Some(Map(DecodeEntries(n, rest).value))
  {
    CountReadsBack(n, rest);
  }

  lemma MapReadsBack(parts: seq<(Bytes, Bytes)>)
    requires |parts| < LENGTH_LIMIT && AllPairsReadBack(parts)
    ensures PayloadReadsBack(109, BigEndian8(|parts|) + JoinPairs(Sort(PairLeq, parts)))
  {
    var sorted := Sort(PairLeq, parts);
    SortedPairsReadBack(parts);
    SortPairsAgain(parts);
    EntriesReadBack(sorted);
    MapDecodes(|sorted|, JoinPairs(sorted));
    MapPayloadOf(DecodeEntries(|sorted|, JoinPairs(sorted)).value, sorted);
  }

  lemma LeafReadsBack(v: Value)
    requires (Leaf(v) || v.Float?) && Payload(v).Ok?
    ensures PayloadReadsBack(Tag(v), Payload(v).value)
  {
    match v
    case Int(i) => SignedReadsBack(i);
    case Float(f) => FloatReadsBack(f);
    case Str(t) => TextReadsBack(t);
    case PurePath(t) => TextReadsBack(t);
    case _ =>
  }

  lemma EnumDecodes(name: Text, inner: Bytes)
    requires Frame(CLASS_TAG, Utf8(name)).Ok? && Decode(inner).Some?
    ensures DecodeEnum(Frame(CLASS_TAG, Utf8(name)).value + inner) == Some(Enum(name, Decode(inner).value))
  {
    FrameIsTaken(CLASS_TAG, Utf8(name), inner);
    TextReadsBack(name);
  }

  lemma EnumPayloadOf(name: Text, v: Value, inner: Bytes)
    requires TextBytes(name).Ok? && Frame(CLASS_TAG, Utf8(name)).Ok? && Encode(v) == Ok(inner)
    ensures Payload(Enum(name, v)) == Ok(Frame(CLASS_TAG, Utf8(name)).value + inner)
  {
  }

  lemma DecodedEnumReadsBack(payload: Bytes, v: Value)
    requires v.Enum? && DecodeEnum(payload) == Some(v) && Payload(v) == Ok(payload)
    ensures PayloadReadsBack(101, payload)
  {
  }

  lemma EnumReadsBack(name: Text, inner: Bytes)
    requires TextBytes(name).Ok? && Frame(CLASS_TAG, Utf8(name)).Ok? && ReadsBack(inner)
    ensures PayloadReadsBack(101, Frame(CLASS_TAG, Utf8(name)).value + inner)
  {
    EnumDecodes(name, inner);
    EnumPayloadOf(name, Decode(inner).value, inner);
    DecodedEnumReadsBack(Frame(CLASS_TAG, Utf8(name)).value + inner, Enum(name, Decode(inner).value));
  }

  lemma {:induction false} MembersReadBack(items: seq<Value>)
    requires EncodeAll(items).Ok?
    ensures AllReadBack(EncodeAll(items).value)
    decreases items, 0
  {
    EncodeAllAt(items);
    forall i | 0 <= i < |items| ensures ReadsBack(EncodeAll(items).value[i]) {
      EncodingReadsBack(items[i]);
    }
  }

  lemma {:induction false} EntryReadsBack(entry: Entry)
    requires EncodeEntry(entry).Ok?
    ensures ReadsBack(EncodeEntry(entry).value.0) && ReadsBack(EncodeEntry(entry).value.1)
    decreases entry, 0
  {
    EncodingReadsBack(entry.key);
    EncodingReadsBack(entry.item);
  }

  lemma {:induction false} PairsReadBack(entries: seq<Entry>)
    requires EncodeEntries(entries).Ok?
    ensures AllPairsReadBack(EncodeEntries(entries).value)
    decreases entries, 0
  {
    EncodeEntriesAt(entries);
    var parts := EncodeEntries(entries).value;
    forall i | 0 <= i < |entries| ensures ReadsBack(parts[i].0) && ReadsBack(parts[i].1) {
      assert EncodeEntry(entries[i]) == Ok(parts[i]);
      EntryReadsBack(entries[i]);
    }
  }

  lemma {:induction false} ItemsPayloadReadsBack(v: Value, items: seq<Value>)
    requires v == List(items) || v == Tuple(items) || v == Set(items) || v == FrozenSet(items)
    requires Payload(v).Ok?
    ensures PayloadReadsBack(Tag(v), Payload(v).value)
    decreases items, 1
  {
    var parts := EncodeAll(items).value;
    MembersReadBack(items);
    WrittenReadsBack(Tag(v), parts);
    ContainerReadsBack(Tag(v), Written(Tag(v), parts));
  }

  lemma {:induction false} ValuePayloadReadsBack(v: Value)
    requires Plain(v) && Payload(v).Ok?
    ensures PayloadReadsBack(Tag(v), Payload(v).value)
    decreases v, 1
  {
    match v
    case Enum(name, inner) => EncodingReadsBack(inner); EnumReadsBack(name, Encode(inner).value);
    case List(items) => ItemsPayloadReadsBack(v, items);
    case Tuple(items) => ItemsPayloadReadsBack(v, items);
    case Set(items) => ItemsPayloadReadsBack(v, items);
    case FrozenSet(items) => ItemsPayloadReadsBack(v, items);
    case Map(entries) => PairsReadBack(entries); MapReadsBack(EncodeEntries(entries).value);
    case _ => LeafReadsBack(v);
  }

  /** Every encoding is decoded, to a value with the same encoding. */
  lemma {:induction false} EncodingReadsBack(v: Value)
    requires Encode(v).Ok?
    ensures ReadsBack(Encode(v).value)
    decreases v, 2
  {
    if v.Object? {
      EncodingReadsBack(v.dump);
    } else {
      ValuePayloadReadsBack(v);
      FrameReadsBack(Tag(v), Payload(v).value);
    }
  }

  /** Reads a value from canonical bytes. */
  function DecodeCanonical(bytes: Bytes): Option<Value> {
    if FORMAT_PREFIX <= bytes then Decode(bytes[|FORMAT_PREFIX|..]) else None
  }

  /** Decoding the canonical bytes of a value gives the same value back. */
  lemma DecodeInvertsEncode(v: Value)
    requires CanonicalBytes(v).Ok?
    ensures DecodeCanonical(CanonicalBytes(v).value).Some? && Same(v, DecodeCanonical(CanonicalBytes(v).value).value)
  {
    var body := Encode(v).value;
    assert CanonicalBytes(v).value[|FORMAT_PREFIX|..] == body;
    EncodingReadsBack(v);
    EqualBytesSameValue(v, Decode(body).value);
  }

  /** The bytes are an encoding exactly when they are read back. */
  lemma EncodingsExactly(bytes: Bytes)
    ensures (exists v :: Encode(v) == Ok(bytes)) <==> ReadsBack(bytes)
  {
    if v :| Encode(v) == Ok(bytes) {
      EncodingReadsBack(v);
    }
  }
}
