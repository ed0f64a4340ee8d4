/** The encoding is prefix-free, and equal bytes mean the same value and nothing else. */
module IdentityExactness {
  import opened Wrappers
  import opened Scalars
  import opened Sorting
  import opened Identity

  // Frames

  lemma FramePrefixFree(t: Byte, p: Bytes, u: Byte, q: Bytes, r: Bytes, s: Bytes)
    requires Frame(t, p).Ok? && Frame(u, q).Ok?
    requires Frame(t, p).value + r == Frame(u, q).value + s
    ensures t == u && p == q && r == s
  {
    var x, y := Frame(t, p).value, Frame(u, q).value;
    assert x[0] == (x + r)[0] == (y + s)[0] == y[0];
    assert x[1..9] == (x + r)[1..9] == (y + s)[1..9] == y[1..9];
    assert x[1..9] == BigEndian8(|p|) && y[1..9] == BigEndian8(|q|);
    BigEndian8Injective(|p|, |q|);
    assert x[9..] == p && y[9..] == q;
    assert x == (x + r)[..|x|] == (y + s)[..|y|] == y;
    assert r == (x + r)[|x|..] == (y + s)[|y|..] == s;
  }

  lemma FrameInjective(t: Byte, p: Bytes, u: Byte, q: Bytes)
    requires Frame(t, p).Ok? && Frame(t, p) == Frame(u, q)
    ensures t == u && p == q
  {
    FramePrefixFree(t, p, u, q, [], []);
  }

  ghost predicate IsFrame(x: Bytes) {
    exists t: Byte, p: Bytes :: Frame(t, p) == Ok(x)
  }

  lemma {:induction false} EncodeIsFrame(v: Value)
    requires Encode(v).Ok?
    ensures IsFrame(Encode(v).value)
  {
    if v.Object? {
      EncodeIsFrame(v.dump);
    } else {
      assert Frame(Tag(v), Payload(v).value) == Ok(Encode(v).value);
    }
  }

  lemma FramesPrefixFree(x: Bytes, y: Bytes, r: Bytes, s: Bytes)
    requires IsFrame(x) && IsFrame(y) && x + r == y + s
    ensures x == y && r == s
  {
    var t: Byte, p: Bytes :| Frame(t, p) == Ok(x);
    var u: Byte, q: Bytes :| Frame(u, q) == Ok(y);
    FramePrefixFree(t, p, u, q, r, s);
  }

  /** No encoding is a proper prefix of another. */
  lemma PrefixFree(v: Value, w: Value, r: Bytes, s: Bytes)
    requires Encode(v).Ok? && Encode(w).Ok?
    requires Encode(v).value + r == Encode(w).value + s
    ensures Encode(v) == Encode(w) && r == s
  {
    EncodeIsFrame(v);
    EncodeIsFrame(w);
    FramesPrefixFree(Encode(v).value, Encode(w).value, r, s);
  }

  // Lists of frames

  ghost predicate AllFrames(xs: seq<Bytes>) {
    forall i :: 0 <= i < |xs| ==> IsFrame(xs[i])
  }

  ghost predicate AllPairFrames(xs: seq<(Bytes, Bytes)>) {
    forall i :: 0 <= i < |xs| ==> IsFrame(xs[i].0) && IsFrame(xs[i].1)
  }

  lemma {:induction false} JoinInjective(xs: seq<Bytes>, ys: seq<Bytes>)
    requires AllFrames(xs) && AllFrames(ys) && |xs| == |ys|
    requires Join(xs) == Join(ys)
    ensures xs == ys
  {
    if xs != [] {
      FramesPrefixFree(xs[0], ys[0], Join(xs[1..]), Join(ys[1..]));
      JoinInjective(xs[1..], ys[1..]);
      assert xs == [xs[0]] + xs[1..] && ys == [ys[0]] + ys[1..];
    }
  }

  lemma {:induction false} JoinPairsInjective(xs: seq<(Bytes, Bytes)>, ys: seq<(Bytes, Bytes)>)
    requires AllPairFrames(xs) && AllPairFrames(ys) && |xs| == |ys|
    requires JoinPairs(xs) == JoinPairs(ys)
    ensures xs == ys
  {
    if xs != [] {
      var r, s := JoinPairs(xs[1..]), JoinPairs(ys[1..]);
      FramesPrefixFree(xs[0].0, ys[0].0, xs[0].1 + r, ys[0].1 + s);
      FramesPrefixFree(xs[0].1, ys[0].1, r, s);
      JoinPairsInjective(xs[1..], ys[1..]);
      assert xs == [xs[0]] + xs[1..] && ys == [ys[0]] + ys[1..];
    }
  }

  lemma LengthPrefixInjective(n: nat, m: nat, r: Bytes, s: Bytes)
    requires n < LENGTH_LIMIT && m < LENGTH_LIMIT
    requires BigEndian8(n) + r == BigEndian8(m) + s
    ensures n == m && r == s
  {
    var x, y := BigEndian8(n) + r, BigEndian8(m) + s;
    assert x[..8] == BigEndian8(n) && y[..8] == BigEndian8(m);
    assert x[8..] == r && y[8..] == s;
    BigEndian8Injective(n, m);
  }

  // Byte order is total

  lemma LeqTotal(a: Bytes, b: Bytes)
    ensures Leq(a, b) || Leq(b, a)
  {
    TextLeqTotal(a, b);
  }

  lemma LeqAntisymmetric(a: Bytes, b: Bytes)
    requires Leq(a, b) && Leq(b, a)
    ensures a == b
  {
    TextLeqAntisymmetric(a, b);
  }

  lemma LeqTransitive(a: Bytes, b: Bytes, c: Bytes)
    requires Leq(a, b) && Leq(b, c)
    ensures Leq(a, c)
  {
    TextLeqTransitive(a, b, c);
  }

  lemma LeqIsTotalOrder()
    ensures TotalOrder(Leq)
  {
    forall a, b ensures Leq(a, b) || Leq(b, a) {
      LeqTotal(a, b);
    }
    forall a, b | Leq(a, b) && Leq(b, a) ensures a == b {
      LeqAntisymmetric(a, b);
    }
    forall a, b, c | Leq(a, b) && Leq(b, c) ensures Leq(a, c) {
      LeqTransitive(a, b, c);
    }
  }

  lemma PairLeqIsTotalOrder()
    ensures TotalOrder(PairLeq)
  {
    forall x, y ensures PairLeq(x, y) || PairLeq(y, x) {
      LeqTotal(x.0, y.0);
      LeqTotal(x.1, y.1);
    }
    forall x, y | PairLeq(x, y) && PairLeq(y, x) ensures x == y {
      if x.0 == y.0 {
        LeqAntisymmetric(x.1, y.1);
      } else {
        LeqAntisymmetric(x.0, y.0);
      }
    }
    forall x, y, z | PairLeq(x, y) && PairLeq(y, z) ensures PairLeq(x, z) {
      if x.0 == y.0 == z.0 {
        LeqTransitive(x.1, y.1, z.1);
      } else if x.0 == z.0 {
        LeqAntisymmetric(x.0, y.0);
      } else {
        LeqTotal(y.0, y.0);
        LeqTransitive(x.0, y.0, z.0);
      }
    }
  }

  /** Sorting forgets exactly the order in which the parts arrived. */
  lemma SortForgetsOrder<T(!new)>(le: (T, T) -> bool, xs: seq<T>, ys: seq<T>)
    requires TotalOrder(le)
    ensures Sort(le, xs) == Sort(le, ys) <==> multiset(xs) == multiset(ys)
  {
    SortPermutes(le, xs);
    SortPermutes(le, ys);
    if multiset(xs) == multiset(ys) {
      SortSorts(le, xs);
      SortSorts(le, ys);
      SortedUnique(le, Sort(le, xs), Sort(le, ys));
    }
  }

  // The encodings of a container's members

  lemma {:induction false} EncodeAllAt(items: seq<Value>)
    ensures EncodeAll(items).Ok? <==> forall i :: 0 <= i < |items| ==> Encode(items[i]).Ok?
    ensures EncodeAll(items).Ok? ==>
      && AllFrames(EncodeAll(items).value)
      && forall i :: 0 <= i < |items| ==> Encode(items[i]) == Ok(EncodeAll(items).value[i])
  {
    if items != [] {
      EncodeAllAt(items[1..]);
      forall i | 0 < i < |items| ensures items[i] == items[1..][i - 1] {}
      if EncodeAll(items).Ok? {
        EncodeIsFrame(items[0]);
        var parts := EncodeAll(items).value;
        forall i | 0 <= i < |items| ensures Encode(items[i]) == Ok(parts[i]) && IsFrame(parts[i]) {
          if i > 0 {
            assert parts[i] == EncodeAll(items[1..]).value[i - 1];
          }
        }
      }
    }
  }

  lemma {:induction false} EncodeEntriesAt(entries: seq<Entry>)
    ensures EncodeEntries(entries).Ok? <==> forall i :: 0 <= i < |entries| ==> EncodeEntry(entries[i]).Ok?
    ensures EncodeEntries(entries).Ok? ==>
      && AllPairFrames(EncodeEntries(entries).value)
      && forall i :: 0 <= i < |entries| ==> EncodeEntry(entries[i]) == Ok(EncodeEntries(entries).value[i])
  {
    if entries != [] {
      EncodeEntriesAt(entries[1..]);
      forall i | 0 < i < |entries| ensures entries[i] == entries[1..][i - 1] {}
      if EncodeEntries(entries).Ok? {
        assert EncodeEntry(entries[0]).Ok?;
        EncodeIsFrame(entries[0].key);
        EncodeIsFrame(entries[0].item);
        var parts := EncodeEntries(entries).value;
        forall i | 0 <= i < |entries|
          ensures EncodeEntry(entries[i]) == Ok(parts[i]) && IsFrame(parts[i].0) && IsFrame(parts[i].1)
        {
          if i > 0 {
            assert parts[i] == EncodeEntries(entries[1..]).value[i - 1];
          }
        }
      }
    }
  }

  // Equal bytes come from the same value

  predicate Plain(v: Value) {
    !v.Object? && !v.Unsupported?
  }

  lemma SameFrameSamePayload(v: Value, w: Value)
    requires Plain(v) && Plain(w)
    requires Encode(v).Ok? && Encode(v) == Encode(w)
    ensures Tag(v) == Tag(w) && Payload(v).Ok? && Payload(v) == Payload(w)
  {
    FrameInjective(Tag(v), Payload(v).value, Tag(w), Payload(w).value);
  }

  lemma EqualSequences(n: nat, parts: seq<Bytes>, m: nat, parts': seq<Bytes>)
    requires n == |parts| < LENGTH_LIMIT && m == |parts'| < LENGTH_LIMIT
    requires AllFrames(parts) && AllFrames(parts')
    requires BigEndian8(n) + Join(parts) == BigEndian8(m) + Join(parts')
    ensures parts == parts'
  {
    LengthPrefixInjective(n, m, Join(parts), Join(parts'));
    JoinInjective(parts, parts');
  }

  lemma SortKeepsFrames(parts: seq<Bytes>)
    requires AllFrames(parts)
    ensures AllFrames(Sort(Leq, parts)) && |Sort(Leq, parts)| == |parts|
  {
    var sorted := Sort(Leq, parts);
    SortPermutes(Leq, parts);
    forall i | 0 <= i < |sorted| ensures IsFrame(sorted[i]) {
      assert sorted[i] in multiset(sorted);
      assert sorted[i] in parts;
    }
  }

  lemma SortKeepsPairFrames(parts: seq<(Bytes, Bytes)>)
    requires AllPairFrames(parts)
    ensures AllPairFrames(Sort(PairLeq, parts)) && |Sort(PairLeq, parts)| == |parts|
  {
    var sorted := Sort(PairLeq, parts);
    SortPermutes(PairLeq, parts);
    forall i | 0 <= i < |sorted| ensures IsFrame(sorted[i].0) && IsFrame(sorted[i].1) {
      assert sorted[i] in multiset(sorted);
      assert sorted[i] in parts;
    }
  }

  /** What equal set payloads say about the members' encodings. */
  lemma EqualSets(a: seq<Value>, b: seq<Value>) returns (p: seq<nat>)
    requires EncodeAll(a).Ok? && EncodeAll(b).Ok? && |a| < LENGTH_LIMIT && |b| < LENGTH_LIMIT
    requires BigEndian8(|a|) + Join(Sort(Leq, EncodeAll(a).value))
          == BigEndian8(|b|) + Join(Sort(Leq, EncodeAll(b).value))
    ensures |a| == |b| && IsPermutation(p, |a|)
    ensures forall i :: 0 <= i < |a| ==> Encode(a[i]).Ok? && Encode(a[i]) == Encode(b[p[i]])
  {
    EncodeAllAt(a);
    EncodeAllAt(b);
    var x, y := EncodeAll(a).value, EncodeAll(b).value;
    SortKeepsFrames(x);
    SortKeepsFrames(y);
    EqualSequences(|a|, Sort(Leq, x), |b|, Sort(Leq, y));
    LeqIsTotalOrder();
    SortForgetsOrder(Leq, x, y);
    p := PermutationOf(x, y);
  }

  lemma EqualMaps(a: seq<Entry>, b: seq<Entry>) returns (p: seq<nat>)
    requires EncodeEntries(a).Ok? && EncodeEntries(b).Ok? && |a| < LENGTH_LIMIT && |b| < LENGTH_LIMIT
    requires BigEndian8(|a|) + JoinPairs(Sort(PairLeq, EncodeEntries(a).value))
          == BigEndian8(|b|) + JoinPairs(Sort(PairLeq, EncodeEntries(b).value))
    ensures |a| == |b| && IsPermutation(p, |a|)
    ensures forall i :: 0 <= i < |a| ==> EncodeEntry(a[i]).Ok? && EncodeEntry(a[i]) == EncodeEntry(b[p[i]])
  {
    EncodeEntriesAt(a);
    EncodeEntriesAt(b);
    var x, y := EncodeEntries(a).value, EncodeEntries(b).value;
    SortKeepsPairFrames(x);
    SortKeepsPairFrames(y);
    var sx, sy := Sort(PairLeq, x), Sort(PairLeq, y);
    LengthPrefixInjective(|a|, |b|, JoinPairs(sx), JoinPairs(sy));
    JoinPairsInjective(sx, sy);
    PairLeqIsTotalOrder();
    SortForgetsOrder(PairLeq, x, y);
    p := PermutationOf(x, y);
  }

  lemma {:induction false} EqualBytesSameItems(a: seq<Value>, b: seq<Value>)
    requires EncodeAll(a).Ok? && EncodeAll(a) == EncodeAll(b)
    ensures SameInOrder(a, b)
    decreases a, b, 0
  {
    EncodeAllAt(a);
    EncodeAllAt(b);
    forall i | 0 <= i < |a| ensures Same(a[i], b[i]) {
      EqualBytesSameValue(a[i], b[i]);
    }
  }

  lemma {:induction false} EqualSetBytesSameItems(a: seq<Value>, b: seq<Value>)
    requires EncodeAll(a).Ok? && EncodeAll(b).Ok? && |a| < LENGTH_LIMIT && |b| < LENGTH_LIMIT
    requires BigEndian8(|a|) + Join(Sort(Leq, EncodeAll(a).value))
          == BigEndian8(|b|) + Join(Sort(Leq, EncodeAll(b).value))
    ensures SameRearranged(a, b)
    decreases a, b, 0
  {
    var p := EqualSets(a, b);
    forall i | 0 <= i < |a| ensures Same(a[i], b[p[i]]) {
      EqualBytesSameValue(a[i], b[p[i]]);
    }
  }

  ghost predicate EntriesMatch(a: seq<Entry>, b: seq<Entry>, p: seq<nat>) {
    && |a| == |b| && IsPermutation(p, |a|)
    && forall i :: 0 <= i < |a| ==> Same(a[i].key, b[p[i]].key) && Same(a[i].item, b[p[i]].item)
  }

  lemma SameMaps(a: seq<Entry>, b: seq<Entry>)
    ensures Same(Map(a), Map(b)) <==> exists p :: EntriesMatch(a, b, p)
  {
    if p :| EntriesMatch(a, b, p) {
      assert IsPermutation(p, |a|) &&
        forall i :: 0 <= i < |a| ==> Same(a[i].key, b[p[i]].key) && Same(a[i].item, b[p[i]].item);
    }
    if Same(Map(a), Map(b)) {
      var p: seq<nat> :| IsPermutation(p, |a|) &&
        forall i :: 0 <= i < |a| ==> Same(a[i].key, b[p[i]].key) && Same(a[i].item, b[p[i]].item);
      assert EntriesMatch(a, b, p);
    }
  }

  lemma {:induction false} EqualMapBytesSameEntries(v: Value, w: Value)
    requires v.Map? && w.Map? && Payload(v).Ok? && Payload(v) == Payload(w)
    ensures Same(v, w)
    decreases v, w, 0
  {
    var a, b := v.entries, w.entries;
    var p := EqualMaps(a, b);
    forall i | 0 <= i < |a|
      ensures Same(a[i].key, b[p[i]].key) && Same(a[i].item, b[p[i]].item)
    {
      assert EncodeEntry(a[i]) == EncodeEntry(b[p[i]]);
      EqualBytesSameValue(a[i].key, b[p[i]].key);
      EqualBytesSameValue(a[i].item, b[p[i]].item);
    }
    assert EntriesMatch(a, b, p);
    SameMaps(a, b);
  }

  lemma EqualLeafBytesSameValue(v: Value, w: Value)
    requires Plain(v) && Plain(w) && Tag(v) == Tag(w)
    requires Leaf(v) || v.Float?
    requires Payload(v).Ok? && Payload(v) == Payload(w)
    ensures Same(v, w)
  {
    match v
    case Int(i) => SignedInjective(i, w.i);
    case Float(f) => HexTextExact(f, w.f);
    case Str(t) => Utf8Injective(t, w.text);
    case PurePath(t) => Utf8Injective(t, w.posix);
    case _ =>
  }

  lemma {:induction false} EqualEnumBytesSameValue(v: Value, w: Value)
    requires v.Enum? && w.Enum? && Payload(v).Ok? && Payload(v) == Payload(w)
    ensures v.typeName == w.typeName
    ensures Encode(v.inner).Ok? && Encode(v.inner) == Encode(w.inner)
  {
    var n, m := Utf8(v.typeName), Utf8(w.typeName);
    FramePrefixFree(CLASS_TAG, n, CLASS_TAG, m, Encode(v.inner).value, Encode(w.inner).value);
    Utf8Injective(v.typeName, w.typeName);
  }

  lemma {:induction false} EqualBytesSameValue(v: Value, w: Value)
    requires Encode(v).Ok? && Encode(v) == Encode(w)
    ensures Same(v, w)
    decreases v, w, 2
  {
    if v.Object? {
      EqualBytesSameValue(v.dump, w);
    } else if w.Object? {
      EqualBytesSameValue(v, w.dump);
    } else {
      SameFrameSamePayload(v, w);
      EqualPayloadsSameValue(v, w);
    }
  }

  lemma {:induction false} EqualPayloadsSameValue(v: Value, w: Value)
    requires Plain(v) && Plain(w) && Tag(v) == Tag(w)
    requires Payload(v).Ok? && Payload(v) == Payload(w)
    ensures Same(v, w)
    decreases v, w, 1
  {
    match v
    case Enum(_, _) =>
      EqualEnumBytesSameValue(v, w);
      EqualBytesSameValue(v.inner, w.inner);
    case List(a) => EqualSequencePayload(a, w.items); EqualBytesSameItems(a, w.items);
    case Tuple(a) => EqualSequencePayload(a, w.items); EqualBytesSameItems(a, w.items);
    case Set(a) => EqualSetBytesSameItems(a, w.items);
    case FrozenSet(a) => EqualSetBytesSameItems(a, w.items);
    case Map(_) => EqualMapBytesSameEntries(v, w);
    case _ => EqualLeafBytesSameValue(v, w);
  }

  lemma PartsAreFrames(items: seq<Value>, parts: seq<Bytes>)
    requires EncodeAll(items) == Ok(parts)
    ensures AllFrames(parts) && |parts| == |items|
  {
    EncodeAllAt(items);
  }

  lemma EqualSequencePayload(a: seq<Value>, b: seq<Value>)
    requires EncodeAll(a).Ok? && EncodeAll(b).Ok? && |a| < LENGTH_LIMIT && |b| < LENGTH_LIMIT
    requires BigEndian8(|a|) + Join(EncodeAll(a).value) == BigEndian8(|b|) + Join(EncodeAll(b).value)
    ensures EncodeAll(a) == EncodeAll(b)
  {
    var x, y := EncodeAll(a).value, EncodeAll(b).value;
    PartsAreFrames(a, x);
    PartsAreFrames(b, y);
    EqualSequences(|a|, x, |b|, y);
  }

  // The same value always gets the same bytes

  ghost predicate Agree<T>(x: Outcome<T>, y: Outcome<T>) {
    if x.Ok? then x == y else y.Err?
  }

  lemma {:induction false} SameItemsEqualBytes(a: seq<Value>, b: seq<Value>)
    requires SameInOrder(a, b)
    ensures Agree(EncodeAll(a), EncodeAll(b))
    decreases a, b, 0
  {
    EncodeAllAt(a);
    EncodeAllAt(b);
    forall i | 0 <= i < |a| ensures Agree(Encode(a[i]), Encode(b[i])) {
      SameValueEqualBytes(a[i], b[i]);
    }
    if EncodeAll(a).Ok? {
      forall i | 0 <= i < |b| ensures Encode(b[i]).Ok? {
        assert Agree(Encode(a[i]), Encode(b[i]));
      }
      var x, y := EncodeAll(a).value, EncodeAll(b).value;
      forall i | 0 <= i < |a| ensures x[i] == y[i] {
        assert Agree(Encode(a[i]), Encode(b[i]));
      }
      assert x == y;
    } else {
      var i :| 0 <= i < |a| && Encode(a[i]).Err?;
      assert Agree(Encode(a[i]), Encode(b[i]));
    }
  }

  lemma {:induction false} RearrangedItemsEqualBytes(a: seq<Value>, b: seq<Value>)
    requires SameRearranged(a, b)
    ensures EncodeAll(a).Ok? <==> EncodeAll(b).Ok?
    ensures EncodeAll(a).Ok? ==> Sort(Leq, EncodeAll(a).value) == Sort(Leq, EncodeAll(b).value)
    decreases a, b, 0
  {
    var p: seq<nat> :| IsPermutation(p, |a|) && forall i :: 0 <= i < |a| ==> Same(a[i], b[p[i]]);
    forall i | 0 <= i < |a| ensures Agree(Encode(a[i]), Encode(b[p[i]])) {
      SameValueEqualBytes(a[i], b[p[i]]);
    }
    EncodeAllAt(a);
    EncodeAllAt(b);
    if EncodeAll(a).Ok? {
      forall j | 0 <= j < |b| ensures Encode(b[j]).Ok? {
        var i := Preimage(p, |a|, j);
        assert Agree(Encode(a[i]), Encode(b[p[i]]));
      }
      var x, y := EncodeAll(a).value, EncodeAll(b).value;
      forall i | 0 <= i < |x| ensures x[i] == y[p[i]] {
        assert Agree(Encode(a[i]), Encode(b[p[i]]));
      }
      PermutationKeepsElements(x, y, p);
      LeqIsTotalOrder();
      SortForgetsOrder(Leq, x, y);
    } else {
      var i :| 0 <= i < |a| && Encode(a[i]).Err?;
      assert Agree(Encode(a[i]), Encode(b[p[i]]));
    }
  }

  lemma {:induction false} SameEntriesEqualBytes(v: Value, w: Value)
    requires v.Map? && w.Map? && Same(v, w)
    ensures Agree(Payload(v), Payload(w))
    decreases v, w, 0
  {
    var a, b := v.entries, w.entries;
    SameMaps(a, b);
    var p :| EntriesMatch(a, b, p);
    forall i | 0 <= i < |a| ensures Agree(EncodeEntry(a[i]), EncodeEntry(b[p[i]])) {
      SameValueEqualBytes(a[i].key, b[p[i]].key);
      SameValueEqualBytes(a[i].item, b[p[i]].item);
    }
    RearrangedEntriesEqualBytes(a, b, p);
  }

  lemma RearrangedEntriesEqualBytes(a: seq<Entry>, b: seq<Entry>, p: seq<nat>)
    requires |a| == |b| && IsPermutation(p, |a|)
    requires forall i :: 0 <= i < |a| ==> Agree(EncodeEntry(a[i]), EncodeEntry(b[p[i]]))
    ensures EncodeEntries(a).Ok? <==> EncodeEntries(b).Ok?
    ensures EncodeEntries(a).Ok? ==>
      Sort(PairLeq, EncodeEntries(a).value) == Sort(PairLeq, EncodeEntries(b).value)
  {
    EncodeEntriesAt(a);
    EncodeEntriesAt(b);
    if EncodeEntries(a).Ok? {
      forall j | 0 <= j < |b| ensures EncodeEntry(b[j]).Ok? {
        var i := Preimage(p, |a|, j);
        assert Agree(EncodeEntry(a[i]), EncodeEntry(b[p[i]]));
      }
      var x, y := EncodeEntries(a).value, EncodeEntries(b).value;
      forall i | 0 <= i < |x| ensures x[i] == y[p[i]] {
        assert Agree(EncodeEntry(a[i]), EncodeEntry(b[p[i]]));
      }
      PermutationKeepsElements(x, y, p);
      PairLeqIsTotalOrder();
      SortForgetsOrder(PairLeq, x, y);
    } else {
      var i :| 0 <= i < |a| && EncodeEntry(a[i]).Err?;
      assert Agree(EncodeEntry(a[i]), EncodeEntry(b[p[i]]));
    }
  }

  lemma {:induction false} SameValueEqualBytes(v: Value, w: Value)
    requires Same(v, w)
    ensures Agree(Encode(v), Encode(w))
    decreases v, w, 2
  {
    if v.Object? {
      SameValueEqualBytes(v.dump, w);
    } else if w.Object? {
      SameValueEqualBytes(v, w.dump);
    } else {
      SameValueEqualPayloads(v, w);
    }
  }

  lemma {:induction false} SameValueEqualPayloads(v: Value, w: Value)
    requires Plain(v) && Plain(w) && Same(v, w)
    ensures Tag(v) == Tag(w) && Agree(Payload(v), Payload(w))
    decreases v, w, 1
  {
    match v
    case Float(f) => HexTextExact(f, w.f);
    case Enum(_, _) => SameValueEqualBytes(v.inner, w.inner);
    case List(a) => SameItemsEqualBytes(a, w.items);
    case Tuple(a) => SameItemsEqualBytes(a, w.items);
    case Set(a) => RearrangedItemsEqualBytes(a, w.items);
    case FrozenSet(a) => RearrangedItemsEqualBytes(a, w.items);
    case Map(_) => SameEntriesEqualBytes(v, w);
    case _ =>
  }

  /** Encodable values have equal bytes exactly when they are the same value. */
  lemma BytesAreExact(v: Value, w: Value)
    requires Encode(v).Ok?
    ensures CanonicalBytes(v) == CanonicalBytes(w) <==> Same(v, w)
  {
    if CanonicalBytes(v) == CanonicalBytes(w) {
      assert CanonicalBytes(v).value[|FORMAT_PREFIX|..] == Encode(v).value;
      assert CanonicalBytes(w).value[|FORMAT_PREFIX|..] == Encode(w).value;
      EqualBytesSameValue(v, w);
    }
    if Same(v, w) {
      SameValueEqualBytes(v, w);
    }
  }

  /** The order in which a map was filled never shows. */
  lemma MapOrderIsForgotten(a: seq<Entry>, b: seq<Entry>)
    requires multiset(a) == multiset(b)
    ensures Agree(Encode(Map(a)), Encode(Map(b)))
  {
    var p := PermutationOf(a, b);
    RearrangedEntriesEqualBytes(a, b, p);
    assert Agree(Payload(Map(a)), Payload(Map(b)));
  }

  /** Nor does the order in which a set is iterated. */
  lemma SetOrderIsForgotten(x: seq<Value>, y: seq<Value>)
    requires multiset(x) == multiset(y)
    ensures Agree(Encode(Set(x)), Encode(Set(y)))
    ensures Agree(Encode(FrozenSet(x)), Encode(FrozenSet(y)))
  {
    SetPartsAreForgotten(x, y);
    assert Agree(Payload(Set(x)), Payload(Set(y)));
    assert Agree(Payload(FrozenSet(x)), Payload(FrozenSet(y)));
  }

  lemma SetPartsAreForgotten(x: seq<Value>, y: seq<Value>)
    requires multiset(x) == multiset(y)
    ensures |x| == |y| && (EncodeAll(x).Ok? <==> EncodeAll(y).Ok?)
    ensures EncodeAll(x).Ok? ==> Sort(Leq, EncodeAll(x).value) == Sort(Leq, EncodeAll(y).value)
  {
    var q := PermutationOf(x, y);
    EncodeAllAt(x);
    EncodeAllAt(y);
    if EncodeAll(x).Ok? || EncodeAll(y).Ok? {
      forall j | 0 <= j < |x| ensures Encode(x[j]).Ok? && Encode(y[j]).Ok? {
        var i := Preimage(q, |x|, j);
        assert x[i] == y[q[i]] && x[j] == y[q[j]];
      }
      PermutationKeepsElements(EncodeAll(x).value, EncodeAll(y).value, q);
      LeqIsTotalOrder();
      SortForgetsOrder(Leq, EncodeAll(x).value, EncodeAll(y).value);
    }
  }

  lemma DigestInputShape(v: Value, d: Text)
    requires DigestInput(v, d).Ok?
    ensures Frame(DOMAIN_TAG, Utf8(Strip(d))).Ok? && Encode(v).Ok?
    ensures DigestInput(v, d).value[|FORMAT_PREFIX|..] == Frame(DOMAIN_TAG, Utf8(Strip(d))).value + Encode(v).value
  {
  }

  lemma EqualDigestInputs(v: Value, d: Text, w: Value, e: Text)
    requires DigestInput(v, d).Ok? && DigestInput(v, d) == DigestInput(w, e)
    ensures Strip(d) == Strip(e) && Same(v, w)
  {
    DigestInputShape(v, d);
    DigestInputShape(w, e);
    FramePrefixFree(DOMAIN_TAG, Utf8(Strip(d)), DOMAIN_TAG, Utf8(Strip(e)), Encode(v).value, Encode(w).value);
    Utf8Injective(Strip(d), Strip(e));
    EqualBytesSameValue(v, w);
  }

  lemma {:induction false} EncodeTag(v: Value)
    requires Encode(v).Ok?
    ensures Encode(v).value != [] && Encode(v).value[0] != DOMAIN_TAG
  {
    if v.Object? {
      EncodeTag(v.dump);
    }
  }

  lemma DigestInputIsNotBytes(v: Value, d: Text, w: Value)
    requires DigestInput(v, d).Ok?
    ensures DigestInput(v, d) != CanonicalBytes(w)
  {
    DigestInputShape(v, d);
    var x := DigestInput(v, d).value;
    assert x[|FORMAT_PREFIX|] == x[|FORMAT_PREFIX|..][0] == DOMAIN_TAG;
    if Encode(w).Ok? {
      EncodeTag(w);
      assert CanonicalBytes(w).value[|FORMAT_PREFIX|] == Encode(w).value[0];
    }
  }

  lemma SameDigestInputs(v: Value, d: Text, w: Value, e: Text)
    requires DigestInput(v, d).Ok? && Strip(d) == Strip(e) && Same(v, w)
    ensures DigestInput(w, e) == DigestInput(v, d)
  {
    SameValueEqualBytes(v, w);
  }

  /** Hash inputs separate both the identity domain and the value. */
  lemma DigestInputsAreExact(v: Value, d: Text, w: Value, e: Text)
    requires DigestInput(v, d).Ok?
    ensures DigestInput(v, d) == DigestInput(w, e) <==> Strip(d) == Strip(e) && Same(v, w)
  {
    if DigestInput(v, d) == DigestInput(w, e) {
      EqualDigestInputs(v, d, w, e);
    }
    if Strip(d) == Strip(e) && Same(v, w) {
      SameDigestInputs(v, d, w, e);
    }
  }
}
