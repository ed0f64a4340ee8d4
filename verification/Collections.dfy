/** Dictionaries built from lists, sums over lists, and lists without repetitions. */
module Collections {
  import opened Sorting

  /** `{key(x): x for x in xs}`: a later entry replaces an earlier one. */
  function IndexBy<T, K>(key: T -> K, xs: seq<T>): map<K, T> {
    if xs == [] then map[]
    else IndexBy(key, xs[..|xs| - 1])[key(xs[|xs| - 1]) := xs[|xs| - 1]]
  }

  ghost predicate DistinctBy<T, K>(key: T -> K, xs: seq<T>) {
    forall i, j :: 0 <= i < j < |xs| ==> key(xs[i]) != key(xs[j])
  }

  lemma {:induction false} IndexDomain<T, K>(key: T -> K, xs: seq<T>, k: K)
    ensures k in IndexBy(key, xs) <==> exists i :: 0 <= i < |xs| && key(xs[i]) == k
    ensures k in IndexBy(key, xs) ==> IndexBy(key, xs)[k] in xs && key(IndexBy(key, xs)[k]) == k
  {
    if xs != [] {
      var n := |xs| - 1;
      IndexDomain(key, xs[..n], k);
      if i :| 0 <= i < |xs| && key(xs[i]) == k && i < n {
        assert xs[..n][i] == xs[i];
      }
      if i :| 0 <= i < n && key(xs[..n][i]) == k {
        assert xs[i] == xs[..n][i];
      }
    }
  }

  lemma {:induction false} IndexContent<T, K>(key: T -> K, xs: seq<T>, i: nat)
    requires DistinctBy(key, xs) && i < |xs|
    ensures key(xs[i]) in IndexBy(key, xs) && IndexBy(key, xs)[key(xs[i])] == xs[i]
  {
    var n := |xs| - 1;
    if i < n {
      assert xs[..n][i] == xs[i];
      IndexContent(key, xs[..n], i);
      assert key(xs[n]) != key(xs[i]);
    }
  }

  // Sums

  function SumBy<T>(f: T -> int, xs: seq<T>): int {
    if xs == [] then 0 else SumBy(f, xs[..|xs| - 1]) + f(xs[|xs| - 1])
  }

  lemma {:induction false} SumByAppend<T>(f: T -> int, xs: seq<T>, ys: seq<T>)
    ensures SumBy(f, xs + ys) == SumBy(f, xs) + SumBy(f, ys)
  {
    if ys == [] {
      assert xs + ys == xs;
    } else {
      assert (xs + ys)[..|xs + ys| - 1] == xs + ys[..|ys| - 1];
      SumByAppend(f, xs, ys[..|ys| - 1]);
    }
  }

  lemma SumByOne<T>(f: T -> int, x: T)
    ensures SumBy(f, [x]) == f(x)
  {
    assert [x][..0] == [];
  }

  /** A sum does not depend on the order of its terms. */
  lemma {:induction false} SumByPermutation<T>(f: T -> int, xs: seq<T>, ys: seq<T>)
    requires multiset(xs) == multiset(ys)
    ensures SumBy(f, xs) == SumBy(f, ys)
  {
    assert |xs| == |multiset(xs)| == |multiset(ys)| == |ys|;
    if xs != [] {
      assert xs[0] in multiset(ys);
      var k: nat :| k < |ys| && ys[k] == xs[0];
      TailMultiset(xs, ys, k);
      SumByPermutation(f, xs[1..], RemoveAt(ys, k));
      SumByRemove(f, ys, k);
      SumByFirst(f, xs);
    }
  }

  lemma SumByFirst<T>(f: T -> int, xs: seq<T>)
    requires xs != []
    ensures SumBy(f, xs) == f(xs[0]) + SumBy(f, xs[1..])
  {
    assert xs == [xs[0]] + xs[1..];
    SumByAppend(f, [xs[0]], xs[1..]);
    SumByOne(f, xs[0]);
  }

  lemma SumByRemove<T>(f: T -> int, ys: seq<T>, k: nat)
    requires k < |ys|
    ensures SumBy(f, ys) == SumBy(f, RemoveAt(ys, k)) + f(ys[k])
  {
    SplitAt(ys, k);
    SumByThree(f, ys[..k], ys[k], ys[k + 1..]);
  }

  lemma SplitAt<T>(ys: seq<T>, k: nat)
    requires k < |ys|
    ensures ys == ys[..k] + [ys[k]] + ys[k + 1..]
  {
  }

  lemma SumByThree<T>(f: T -> int, before: seq<T>, x: T, after: seq<T>)
    ensures SumBy(f, before + [x] + after) == SumBy(f, before + after) + f(x)
  {
    SumByAppend(f, before + [x], after);
    SumByAppend(f, before, [x]);
    SumByOne(f, x);
    SumByAppend(f, before, after);
  }

  ghost predicate Distinct<T>(xs: seq<T>) {
    forall i, j :: 0 <= i < j < |xs| ==> xs[i] != xs[j]
  }

  /** Two lists without repetitions that have the same members are rearrangements of each other. */
  lemma {:induction false} SameMembersSameMultiset<T>(xs: seq<T>, ys: seq<T>)
    requires Distinct(xs) && Distinct(ys)
    requires forall x :: x in xs <==> x in ys
    ensures multiset(xs) == multiset(ys)
  {
    forall x ensures multiset(xs)[x] == multiset(ys)[x] {
      DistinctCountsOnce(xs, x);
      DistinctCountsOnce(ys, x);
    }
  }

  lemma {:induction false} DistinctCountsOnce<T>(xs: seq<T>, x: T)
    requires Distinct(xs)
    ensures multiset(xs)[x] == if x in xs then 1 else 0
  {
    if xs != [] {
      var n := |xs| - 1;
      assert xs == xs[..n] + [xs[n]];
      DistinctCountsOnce(xs[..n], x);
      if x in xs[..n] {
        var i :| 0 <= i < n && xs[..n][i] == x;
        assert xs[i] == x;
      }
    }
  }

  lemma {:induction false} PermutationKeepsDistinct<T>(xs: seq<T>, ys: seq<T>)
    requires Distinct(xs) && multiset(xs) == multiset(ys)
    ensures Distinct(ys)
  {
    forall i, j | 0 <= i < j < |ys| ensures ys[i] != ys[j] {
      DistinctCountsOnce(xs, ys[i]);
      CountedTwice(ys, i, j);
    }
  }

  lemma CountedTwice<T>(ys: seq<T>, i: nat, j: nat)
    requires i < j < |ys|
    ensures ys[i] == ys[j] ==> multiset(ys)[ys[i]] >= 2
  {
    assert ys == ys[..j] + [ys[j]] + ys[j + 1..];
    assert ys[..j][i] == ys[i];
  }

  lemma PermutationKeepsDistinctBy<T, K>(key: T -> K, xs: seq<T>, ys: seq<T>)
    requires DistinctBy(key, xs) && multiset(xs) == multiset(ys)
    ensures DistinctBy(key, ys)
  {
    forall i, j | 0 <= i < j < |xs| ensures xs[i] != xs[j] {
      assert key(xs[i]) != key(xs[j]);
    }
    PermutationKeepsDistinct(xs, ys);
    forall i, j | 0 <= i < j < |ys| ensures key(ys[i]) != key(ys[j]) {
      assert ys[i] in multiset(xs) && ys[j] in multiset(xs);
      var a :| 0 <= a < |xs| && xs[a] == ys[i];
      var b :| 0 <= b < |xs| && xs[b] == ys[j];
      DistinctKeys(key, xs, a, b);
    }
  }

  lemma DistinctKeys<T, K>(key: T -> K, xs: seq<T>, a: nat, b: nat)
    requires DistinctBy(key, xs) && a < |xs| && b < |xs| && a != b
    ensures key(xs[a]) != key(xs[b])
  {
    if a < b {
      assert key(xs[a]) != key(xs[b]);
    } else {
      assert key(xs[b]) != key(xs[a]);
    }
  }
}
