/** Stable insertion sort, uniqueness of sorted lists, and permutations written as index lists. */
module Sorting {

  ghost predicate TotalPreorder<T(!new)>(le: (T, T) -> bool) {
    && (forall a, b :: le(a, b) || le(b, a))
    && (forall a, b, c :: le(a, b) && le(b, c) ==> le(a, c))
  }

  ghost predicate TotalOrder<T(!new)>(le: (T, T) -> bool) {
    && TotalPreorder(le)
    && (forall a, b :: le(a, b) && le(b, a) ==> a == b)
  }

  ghost predicate Sorted<T>(le: (T, T) -> bool, xs: seq<T>) {
    forall i, j :: 0 <= i < j < |xs| ==> le(xs[i], xs[j])
  }

  /** Puts `x` before the first element that is not smaller, so equal keys keep their order. */
  function Insert<T>(le: (T, T) -> bool, x: T, xs: seq<T>): seq<T> {
    if xs == [] then [x]
    else if le(x, xs[0]) then [x] + xs
    else [xs[0]] + Insert(le, x, xs[1..])
  }

  function Sort<T>(le: (T, T) -> bool, xs: seq<T>): seq<T> {
    if xs == [] then [] else Insert(le, xs[0], Sort(le, xs[1..]))
  }

  lemma {:induction false} InsertPermutes<T>(le: (T, T) -> bool, x: T, xs: seq<T>)
    ensures multiset(Insert(le, x, xs)) == multiset{x} + multiset(xs)
    ensures |Insert(le, x, xs)| == |xs| + 1
  {
    if xs == [] {
    } else if le(x, xs[0]) {
    } else {
      InsertPermutes(le, x, xs[1..]);
      assert xs == [xs[0]] + xs[1..];
    }
  }

  lemma {:induction false} SortPermutes<T>(le: (T, T) -> bool, xs: seq<T>)
    ensures multiset(Sort(le, xs)) == multiset(xs)
    ensures |Sort(le, xs)| == |xs|
  {
    if xs != [] {
      SortPermutes(le, xs[1..]);
      InsertPermutes(le, xs[0], Sort(le, xs[1..]));
      assert xs == [xs[0]] + xs[1..];
    }
  }

  lemma {:induction false} InsertSorts<T(!new)>(le: (T, T) -> bool, x: T, xs: seq<T>)
    requires TotalPreorder(le) && Sorted(le, xs)
    ensures Sorted(le, Insert(le, x, xs))
  {
    if xs == [] {
    } else if le(x, xs[0]) {
      var r := [x] + xs;
      forall i, j | 0 <= i < j < |r| ensures le(r[i], r[j]) {
        if i == 0 {
          assert j == 1 || le(xs[0], xs[j - 1]);
        }
      }
    } else {
      var rest := Insert(le, x, xs[1..]);
      InsertSorts(le, x, xs[1..]);
      InsertPermutes(le, x, xs[1..]);
      var r := [xs[0]] + rest;
      forall i, j | 0 <= i < j < |r| ensures le(r[i], r[j]) {
        if i == 0 {
          assert rest[j - 1] in multiset(rest);
          if rest[j - 1] != x {
            assert rest[j - 1] in xs[1..];
          }
        }
      }
    }
  }

  lemma {:induction false} SortSorts<T(!new)>(le: (T, T) -> bool, xs: seq<T>)
    requires TotalPreorder(le)
    ensures Sorted(le, Sort(le, xs))
  {
    if xs != [] {
      SortSorts(le, xs[1..]);
      InsertSorts(le, xs[0], Sort(le, xs[1..]));
    }
  }

  /** The order tells the members of the list apart. */
  ghost predicate Separates<T>(le: (T, T) -> bool, xs: seq<T>) {
    forall i, j :: 0 <= i < |xs| && 0 <= j < |xs| && le(xs[i], xs[j]) && le(xs[j], xs[i]) ==> xs[i] == xs[j]
  }

  /** An order that tells the members apart has one sorted arrangement of them. */
  lemma {:induction false} SeparatedSortedUnique<T(!new)>(le: (T, T) -> bool, xs: seq<T>, ys: seq<T>)
    requires TotalPreorder(le) && Separates(le, xs)
    requires Sorted(le, xs) && Sorted(le, ys)
    requires multiset(xs) == multiset(ys)
    ensures xs == ys
  {
    assert |xs| == |multiset(xs)| == |multiset(ys)| == |ys|;
    if xs != [] {
      assert xs[0] in multiset(ys) && ys[0] in multiset(xs);
      assert le(xs[0], ys[0]) && le(ys[0], xs[0]);
      assert xs == [xs[0]] + xs[1..] && ys == [ys[0]] + ys[1..];
      assert multiset(xs[1..]) == multiset(xs) - multiset{xs[0]};
      assert multiset(ys[1..]) == multiset(ys) - multiset{ys[0]};
      SeparatedSortedUnique(le, xs[1..], ys[1..]);
    }
  }

  /** A total order has one sorted arrangement of each multiset. */
  lemma SortedUnique<T(!new)>(le: (T, T) -> bool, xs: seq<T>, ys: seq<T>)
    requires TotalOrder(le)
    requires Sorted(le, xs) && Sorted(le, ys)
    requires multiset(xs) == multiset(ys)
    ensures xs == ys
  {
    SeparatedSortedUnique(le, xs, ys);
  }

  ghost predicate IsPermutation(p: seq<nat>, n: nat) {
    && |p| == n
    && (forall i :: 0 <= i < n ==> p[i] < n)
    && (forall i, j :: 0 <= i < j < n ==> p[i] != p[j])
  }

  function RemoveAt<T>(xs: seq<T>, k: nat): seq<T>
    requires k < |xs|
  {
    xs[..k] + xs[k + 1..]
  }

  lemma RemoveAtMultiset<T>(xs: seq<T>, k: nat)
    requires k < |xs|
    ensures multiset(xs) == multiset{xs[k]} + multiset(RemoveAt(xs, k))
  {
    assert xs == xs[..k] + [xs[k]] + xs[k + 1..];
  }

  lemma TailMultiset<T>(xs: seq<T>, ys: seq<T>, k: nat)
    requires xs != [] && k < |ys| && ys[k] == xs[0]
    requires multiset(xs) == multiset(ys)
    ensures multiset(xs[1..]) == multiset(RemoveAt(ys, k))
  {
    RemoveAtMultiset(ys, k);
    assert xs == [xs[0]] + xs[1..];
    assert multiset(xs[1..]) == multiset(xs) - multiset{xs[0]};
    assert multiset(RemoveAt(ys, k)) == multiset(ys) - multiset{ys[k]};
  }

  /** The index list that skips position `k`, with `k` put in front. */
  function SkipFirst(q: seq<nat>, k: nat): (p: seq<nat>)
    ensures |p| == |q| + 1 && p[0] == k
    ensures forall i :: 0 <= i < |q| ==> p[i + 1] == if q[i] < k then q[i] else q[i] + 1
  {
    [k] + seq(|q|, i requires 0 <= i < |q| => if q[i] < k then q[i] else q[i] + 1)
  }

  lemma SkipFirstPermutes(q: seq<nat>, k: nat, n: nat)
    requires IsPermutation(q, n) && k <= n
    ensures IsPermutation(SkipFirst(q, k), n + 1)
  {
    var p := SkipFirst(q, k);
    forall i, j | 0 <= i < j < n + 1 ensures p[i] != p[j] {
      if i > 0 {
        assert q[i - 1] != q[j - 1];
      }
    }
  }

  /** Lists with the same elements are related by a permutation of their indices. */
  lemma {:induction false} PermutationOf<T>(xs: seq<T>, ys: seq<T>) returns (p: seq<nat>)
    requires multiset(xs) == multiset(ys)
    ensures |xs| == |ys| && IsPermutation(p, |xs|)
    ensures forall i :: 0 <= i < |xs| ==> xs[i] == ys[p[i]]
  {
    assert |xs| == |multiset(xs)| == |multiset(ys)| == |ys|;
    if xs == [] {
      p := [];
    } else {
      assert xs[0] in multiset(ys);
      var k: nat :| k < |ys| && ys[k] == xs[0];
      TailMultiset(xs, ys, k);
      var q := PermutationOf(xs[1..], RemoveAt(ys, k));
      p := SkipFirst(q, k);
      SkipFirstPermutes(q, k, |q|);
      SkipFirstMatches(xs, ys, q, k);
    }
  }

  lemma SkipFirstMatches<T>(xs: seq<T>, ys: seq<T>, q: seq<nat>, k: nat)
    requires |xs| == |ys| == |q| + 1 && k < |ys| && xs[0] == ys[k]
    requires forall i :: 0 <= i < |q| ==> q[i] < |q| && xs[1..][i] == RemoveAt(ys, k)[q[i]]
    ensures forall i :: 0 <= i < |xs| ==> SkipFirst(q, k)[i] < |ys| && xs[i] == ys[SkipFirst(q, k)[i]]
  {
    var p := SkipFirst(q, k);
    forall i | 0 <= i < |xs| ensures p[i] < |ys| && xs[i] == ys[p[i]] {
      if i > 0 {
        assert p[i] == if q[i - 1] < k then q[i - 1] else q[i - 1] + 1;
        assert xs[i] == xs[1..][i - 1];
      }
    }
  }

  /** Dropping the first index of a permutation and closing the gap it leaves. */
  function DropFirst(p: seq<nat>): (q: seq<nat>)
    requires p != [] && forall i :: 0 < i < |p| ==> p[i] != p[0]
    ensures |q| == |p| - 1
    ensures forall i :: 0 <= i < |q| ==> q[i] == if p[i + 1] < p[0] then p[i + 1] else p[i + 1] - 1
  {
    seq(|p| - 1, i requires 0 <= i < |p| - 1 =>
      assert p[i + 1] != p[0]; if p[i + 1] < p[0] then p[i + 1] else p[i + 1] - 1)
  }

  lemma DropFirstPermutes(p: seq<nat>, n: nat)
    requires IsPermutation(p, n) && n > 0
    ensures IsPermutation(DropFirst(p), n - 1)
  {
    var q := DropFirst(p);
    forall i | 0 <= i < n - 1 ensures q[i] < n - 1 {
      assert p[0] != p[i + 1];
    }
    forall i, j | 0 <= i < j < n - 1 ensures q[i] != q[j] {
      assert p[i + 1] != p[j + 1] && p[0] != p[i + 1] && p[0] != p[j + 1];
    }
  }

  lemma DropFirstMatches<T>(xs: seq<T>, ys: seq<T>, p: seq<nat>)
    requires xs != [] && |xs| == |ys| && IsPermutation(p, |xs|)
    requires forall i :: 0 <= i < |xs| ==> xs[i] == ys[p[i]]
    ensures forall i :: 0 <= i < |xs| - 1 ==>
      DropFirst(p)[i] < |xs| - 1 && xs[1..][i] == RemoveAt(ys, p[0])[DropFirst(p)[i]]
  {
    var q := DropFirst(p);
    DropFirstPermutes(p, |xs|);
    forall i | 0 <= i < |xs| - 1 ensures xs[1..][i] == RemoveAt(ys, p[0])[q[i]] {
      assert xs[i + 1] == ys[p[i + 1]] && p[i + 1] != p[0];
    }
  }

  /** Conversely, a permutation of indices keeps the elements. */
  lemma {:induction false} PermutationKeepsElements<T>(xs: seq<T>, ys: seq<T>, p: seq<nat>)
    requires |xs| == |ys| && IsPermutation(p, |xs|)
    requires forall i :: 0 <= i < |xs| ==> xs[i] == ys[p[i]]
    ensures multiset(xs) == multiset(ys)
  {
    if xs != [] {
      DropFirstPermutes(p, |xs|);
      DropFirstMatches(xs, ys, p);
      PermutationKeepsElements(xs[1..], RemoveAt(ys, p[0]), DropFirst(p));
      RemoveAtMultiset(ys, p[0]);
      assert xs == [xs[0]] + xs[1..];
    }
  }

  /** Every index is hit: a permutation of `0..n` is onto. */
  lemma {:induction false} Preimage(p: seq<nat>, n: nat, j: nat) returns (i: nat)
    requires IsPermutation(p, n) && j < n
    ensures i < n && p[i] == j
  {
    if j in p {
      i :| i < n && p[i] == j;
    } else {
      var below := Below(n);
      var hit := set k | k in p;
      DistinctCount(p);
      CountBelow(n);
      assert hit <= below - {j};
      SubsetCount(hit, below - {j});
      assert false;
    }
  }

  lemma {:induction false} DistinctCount<T>(xs: seq<T>)
    requires forall i, j :: 0 <= i < j < |xs| ==> xs[i] != xs[j]
    ensures |set x | x in xs| == |xs|
  {
    if xs != [] {
      DistinctCount(xs[1..]);
      assert (set x | x in xs) == {xs[0]} + set x | x in xs[1..];
    }
  }

  function Below(n: nat): set<nat> {
    if n == 0 then {} else Below(n - 1) + {n - 1}
  }

  lemma {:induction false} CountBelow(n: nat)
    ensures |Below(n)| == n
    ensures forall k: nat :: k in Below(n) <==> k < n
  {
    if n > 0 {
      CountBelow(n - 1);
    }
  }

  lemma {:induction false} SubsetCount<T>(a: set<T>, b: set<T>)
    requires a <= b
    ensures |a| <= |b|
  {
    if a != {} {
      var x :| x in a;
      SubsetCount(a - {x}, b - {x});
    }
  }
}
