/**
 Canonical identities: a recursive, type-tagged, length-framed byte encoding of value trees.
 The main result is exactness: two encodable values get the same bytes precisely when they are
 the same value, where maps and sets are compared without regard to order.
 */
module Identity {
  import opened Wrappers
  import opened Scalars
  import opened Sorting

  /**
   The supported Python values. `Object` is a contract model or a dataclass instance, seen as
   the plain value it dumps to; neither leaves a trace of its own type in the bytes.
   */
  datatype Value =
    | Null
    | Bool(b: bool)
    | Int(i: int)
    | Float(f: Double)
    | Str(text: Text)
    | Blob(bytes: Bytes)
    | PurePath(posix: Text)
    | Enum(typeName: Text, inner: Value)
    | Object(dump: Value)
    | List(items: seq<Value>)
    | Tuple(items: seq<Value>)
    | Set(items: seq<Value>)
    | FrozenSet(items: seq<Value>)
    | Map(entries: seq<Entry>)
    | Unsupported(typeName: Text)

  datatype Entry = Entry(key: Value, item: Value)

  datatype Error = CyclicValue | LengthOverflow | LoneSurrogate | UnsupportedType | EmptyDomain

  type Outcome<T> = Result<T, Error>

  /** `agintor.identity.v1` and a zero byte. */
  const FORMAT_PREFIX: Bytes :=
    [97, 103, 105, 110, 116, 111, 114, 46, 105, 100, 101, 110, 116, 105, 116, 121, 46, 118, 49, 0]

  const CLASS_TAG: Byte := 99
  const DOMAIN_TAG: Byte := 68

  function Tag(v: Value): Byte
    requires !v.Object? && !v.Unsupported?
  {
    match v
    case Null => 110
    case Bool(_) => 98
    case Int(_) => 105
    case Float(_) => 102
    case Str(_) => 115
    case Blob(_) => 121
    case PurePath(_) => 112
    case Enum(_, _) => 101
    case List(_) => 108
    case Tuple(_) => 116
    case Set(_) => 117
    case FrozenSet(_) => 114
    case Map(_) => 109
  }

  // Framing

  function Length8(n: nat): Outcome<Bytes> {
    if n < LENGTH_LIMIT then Ok(BigEndian8(n)) else Err(LengthOverflow)
  }

  function Frame(tag: Byte, payload: Bytes): Outcome<Bytes> {
    var length :- Length8(|payload|);
    Ok([tag] + length + payload)
  }

  function TextBytes(t: Text): Outcome<Bytes> {
    if Encodable(t) then Ok(Utf8(t)) else Err(LoneSurrogate)
  }

  function Join(parts: seq<Bytes>): Bytes {
    if parts == [] then [] else parts[0] + Join(parts[1..])
  }

  function JoinPairs(parts: seq<(Bytes, Bytes)>): Bytes {
    if parts == [] then [] else parts[0].0 + (parts[0].1 + JoinPairs(parts[1..]))
  }

  // Byte order, as Python compares bytes and pairs of bytes

  predicate Leq(a: Bytes, b: Bytes) {
    TextLeq(a, b)
  }

  predicate PairLeq(x: (Bytes, Bytes), y: (Bytes, Bytes)) {
    if x.0 == y.0 then Leq(x.1, y.1) else Leq(x.0, y.0)
  }

  // Payloads of the containers, from the outcome of encoding their members. The order of the
  // bindings is the order in which the failures surface.

  function EnumPayload(typeName: Text, inner: Outcome<Bytes>): Outcome<Bytes> {
    var text :- TextBytes(typeName);
    var class_ :- Frame(CLASS_TAG, text);
    var value :- inner;
    Ok(class_ + value)
  }

  function SequencePayload(count: nat, members: Outcome<seq<Bytes>>): Outcome<Bytes> {
    var length :- Length8(count);
    var parts :- members;
    Ok(length + Join(parts))
  }

  function SetPayload(count: nat, members: Outcome<seq<Bytes>>): Outcome<Bytes> {
    var parts :- members;
    var length :- Length8(count);
    Ok(length + Join(Sort(Leq, parts)))
  }

  function MapPayload(count: nat, members: Outcome<seq<(Bytes, Bytes)>>): Outcome<Bytes> {
    var parts :- members;
    var length :- Length8(count);
    Ok(length + JoinPairs(Sort(PairLeq, parts)))
  }

  // The encoder

  function Encode(v: Value): Outcome<Bytes>
    decreases v, 1
  {
    if v.Object? then Encode(v.dump)
    else if v.Unsupported? then Err(UnsupportedType)
    else
      var payload :- Payload(v);
      Frame(Tag(v), payload)
  }

  function Payload(v: Value): Outcome<Bytes>
    requires !v.Object? && !v.Unsupported?
    decreases v, 0
  {
    match v
    case Null => Ok([])
    case Bool(b) => Ok([if b then 49 else 48])
    case Int(i) => Ok(Signed(i))
    case Float(f) => Ok(HexText(f))
    case Str(t) => TextBytes(t)
    case Blob(bytes) => Ok(bytes)
    case PurePath(t) => TextBytes(t)
    case Enum(name, inner) => EnumPayload(name, Encode(inner))
    case List(items) => SequencePayload(|items|, EncodeAll(items))
    case Tuple(items) => SequencePayload(|items|, EncodeAll(items))
    case Set(items) => SetPayload(|items|, EncodeAll(items))
    case FrozenSet(items) => SetPayload(|items|, EncodeAll(items))
    case Map(entries) => MapPayload(|entries|, EncodeEntries(entries))
  }

  function EncodeAll(items: seq<Value>): (r: Outcome<seq<Bytes>>)
    ensures r.Ok? ==> |r.value| == |items|
    decreases items, 0
  {
    if items == [] then Ok([])
    else
      var first :- Encode(items[0]);
      var rest :- EncodeAll(items[1..]);
      Ok([first] + rest)
  }

  function EncodeEntries(entries: seq<Entry>): (r: Outcome<seq<(Bytes, Bytes)>>)
    ensures r.Ok? ==> |r.value| == |entries|
    decreases entries, 0
  {
    if entries == [] then Ok([])
    else
      var first :- EncodeEntry(entries[0]);
      var rest :- EncodeEntries(entries[1..]);
      Ok([first] + rest)
  }

  function EncodeEntry(entry: Entry): Outcome<(Bytes, Bytes)>
    decreases entry, 0
  {
    var key :- Encode(entry.key);
    var item :- Encode(entry.item);
    Ok((key, item))
  }

  function CanonicalBytes(v: Value): Outcome<Bytes> {
    var body :- Encode(v);
    Ok(FORMAT_PREFIX + body)
  }

  /** The bytes that are hashed for a value in an identity domain. */
  function DigestInput(v: Value, domain: Text): Outcome<Bytes> {
    var name := Strip(domain);
    if name == [] then Err(EmptyDomain)
    else
      var text :- TextBytes(name);
      var head :- Frame(DOMAIN_TAG, text);
      var body :- Encode(v);
      Ok(FORMAT_PREFIX + (head + body))
  }

  // What it means for two values to be the same

  /**
   Semantic equality, with no mention of bytes: objects are what they dump to, all NaNs are one,
   sequences agree place by place, sets and maps agree after some rearrangement.
   */
  ghost predicate Same(v: Value, w: Value)
    decreases v, w
  {
    if v.Object? then Same(v.dump, w)
    else if w.Object? then Same(v, w.dump)
    else
      match (v, w)
      case (Float(f), Float(g)) => f == g || (f.NotANumber? && g.NotANumber?)
      case (Enum(n, x), Enum(m, y)) => n == m && Same(x, y)
      case (List(a), List(b)) => SameInOrder(a, b)
      case (Tuple(a), Tuple(b)) => SameInOrder(a, b)
      case (Set(a), Set(b)) => SameRearranged(a, b)
      case (FrozenSet(a), FrozenSet(b)) => SameRearranged(a, b)
      case (Map(a), Map(b)) =>
        && |a| == |b|
        && exists p: seq<nat> :: IsPermutation(p, |a|) &&
             forall i :: 0 <= i < |a| ==> Same(a[i].key, b[p[i]].key) && Same(a[i].item, b[p[i]].item)
      case (_, _) => v == w && Leaf(v)
  }

  predicate Leaf(v: Value) {
    v.Null? || v.Bool? || v.Int? || v.Str? || v.Blob? || v.PurePath?
  }

  ghost predicate SameInOrder(a: seq<Value>, b: seq<Value>)
    decreases a, b, 0
  {
    && |a| == |b|
    && forall i :: 0 <= i < |a| ==> Same(a[i], b[i])
  }

  ghost predicate SameRearranged(a: seq<Value>, b: seq<Value>)
    decreases a, b, 0
  {
    && |a| == |b|
    && exists p: seq<nat> :: IsPermutation(p, |a|) &&
         forall i :: 0 <= i < |a| ==> Same(a[i], b[p[i]])
  }
}
