/** The order in which a document's fields are written never shows in its digest. */
module FieldOrder {
  import opened Wrappers
  import opened Sorting
  import opened Collections
  import opened RuntimeSpec

  lemma {:induction false} KeyLeqTotal(a: string, b: string)
    ensures KeyLeq(a, b) || KeyLeq(b, a)
  {
    if a != [] && b != [] && a[0] == b[0] {
      KeyLeqTotal(a[1..], b[1..]);
    }
  }

  lemma {:induction false} KeyLeqAntisymmetric(a: string, b: string)
    requires KeyLeq(a, b) && KeyLeq(b, a)
    ensures a == b
  {
    if a != [] {
      KeyLeqAntisymmetric(a[1..], b[1..]);
      assert a == [a[0]] + a[1..] && b == [b[0]] + b[1..];
    }
  }

  lemma {:induction false} KeyLeqTransitive(a: string, b: string, c: string)
    requires KeyLeq(a, b) && KeyLeq(b, c)
    ensures KeyLeq(a, c)
  {
    if a != [] && a[0] == b[0] == c[0] {
      KeyLeqTransitive(a[1..], b[1..], c[1..]);
    }
  }

  lemma ByKeyIsTotal()
    ensures TotalPreorder(ByKey)
  {
    forall f, g ensures ByKey(f, g) || ByKey(g, f) {
      KeyLeqTotal(f.key, g.key);
    }
    forall f, g, h | ByKey(f, g) && ByKey(g, h) ensures ByKey(f, h) {
      KeyLeqTransitive(f.key, g.key, h.key);
    }
  }

  function KeyOf(f: Field): string {
    f.key
  }

  ghost predicate HasKey(fields: seq<Field>, key: string) {
    exists j :: 0 <= j < |fields| && fields[j].key == key
  }

  lemma DistinctTail(fields: seq<Field>)
    requires fields != [] && DistinctBy(KeyOf, fields)
    ensures DistinctBy(KeyOf, fields[1..]) && !HasKey(fields[1..], fields[0].key)
  {
    var rest := fields[1..];
    forall i, j | 0 <= i < j < |rest| ensures KeyOf(rest[i]) != KeyOf(rest[j]) {
      assert KeyOf(fields[i + 1]) != KeyOf(fields[j + 1]);
    }
    forall i | 0 <= i < |rest| ensures rest[i].key != fields[0].key {
      assert KeyOf(fields[0]) != KeyOf(fields[i + 1]);
    }
  }

  /** Fields under different keys are told apart by their keys. */
  lemma KeysSeparate(fields: seq<Field>)
    requires DistinctBy(KeyOf, fields)
    ensures Separates(ByKey, fields)
  {
    forall i, j | 0 <= i < |fields| && 0 <= j < |fields| && ByKey(fields[i], fields[j]) && ByKey(fields[j], fields[i])
      ensures fields[i] == fields[j]
    {
      KeyLeqAntisymmetric(fields[i].key, fields[j].key);
      assert KeyOf(fields[i]) == KeyOf(fields[j]);
    }
  }

  lemma {:induction false} PayloadOfRemoved(fields: seq<Field>, k: nat)
    requires k < |fields|
    ensures multiset(PayloadFields(fields)) == multiset(PayloadField(fields[k])) + multiset(PayloadFields(RemoveAt(fields, k)))
  {
    if k > 0 {
      PayloadOfRemoved(fields[1..], k - 1);
      assert RemoveAt(fields, k)[1..] == RemoveAt(fields[1..], k - 1);
    } else {
      assert RemoveAt(fields, 0) == fields[1..];
    }
  }

  lemma {:induction false} PayloadPermutes(a: seq<Field>, b: seq<Field>)
    requires multiset(a) == multiset(b)
    ensures multiset(PayloadFields(a)) == multiset(PayloadFields(b))
  {
    assert |a| == |multiset(a)| == |multiset(b)| == |b|;
    if a != [] {
      assert a[0] in multiset(b);
      var k: nat :| k < |b| && b[k] == a[0];
      TailMultiset(a, b, k);
      PayloadPermutes(a[1..], RemoveAt(b, k));
      PayloadOfRemoved(b, k);
    }
  }

  lemma {:induction false} PayloadKeys(fields: seq<Field>, key: string)
    requires HasKey(PayloadFields(fields), key)
    ensures HasKey(fields, key)
  {
    var first, rest := PayloadField(fields[0]), PayloadFields(fields[1..]);
    var all: seq<Field> := first + rest;
    var i :| 0 <= i < |all| && all[i].key == key;
    if i < |first| {
      assert fields[0].key == key;
    } else {
      assert rest[i - |first|].key == key;
      PayloadKeys(fields[1..], key);
      var j :| 0 <= j < |fields[1..]| && fields[1..][j].key == key;
      assert fields[j + 1].key == key;
    }
  }

  lemma DistinctWithFirst(f: Field, rest: seq<Field>)
    requires DistinctBy(KeyOf, rest) && !HasKey(rest, f.key)
    ensures DistinctBy(KeyOf, [f] + rest)
  {
    var all := [f] + rest;
    forall i, j | 0 <= i < j < |all| ensures KeyOf(all[i]) != KeyOf(all[j]) {
      assert all[j] == rest[j - 1];
      if i > 0 {
        assert all[i] == rest[i - 1] && KeyOf(rest[i - 1]) != KeyOf(rest[j - 1]);
      }
    }
  }

  lemma {:induction false} PayloadKeepsDistinct(fields: seq<Field>)
    requires DistinctBy(KeyOf, fields)
    ensures DistinctBy(KeyOf, PayloadFields(fields))
  {
    if fields != [] {
      DistinctTail(fields);
      PayloadKeepsDistinct(fields[1..]);
      var first, rest := PayloadField(fields[0]), PayloadFields(fields[1..]);
      if first == [] {
        assert first + rest == rest;
      } else {
        if HasKey(rest, fields[0].key) {
          PayloadKeys(fields[1..], fields[0].key);
        }
        DistinctWithFirst(first[0], rest);
        assert first == [first[0]];
      }
    }
  }

  /** A document and any rearrangement of its fields have one digest. */
  lemma FieldOrderIsForgotten(a: seq<Field>, b: seq<Field>)
    requires multiset(a) == multiset(b) && DistinctBy(KeyOf, a)
    ensures DigestPayload(Obj(a)) == DigestPayload(Obj(b))
  {
    var x, y := PayloadFields(a), PayloadFields(b);
    PayloadPermutes(a, b);
    PayloadKeepsDistinct(a);
    ByKeyIsTotal();
    SortSorts(ByKey, x);
    SortSorts(ByKey, y);
    SortPermutes(ByKey, x);
    SortPermutes(ByKey, y);
    PermutationKeepsDistinctBy(KeyOf, x, Sort(ByKey, x));
    KeysSeparate(Sort(ByKey, x));
    SeparatedSortedUnique(ByKey, Sort(ByKey, x), Sort(ByKey, y));
  }
}
