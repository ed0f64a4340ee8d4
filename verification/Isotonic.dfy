/**
 Pool-adjacent-violators. The fit partitions the sorted points into blocks, gives each block the
 mean of its labels, and is the unique least-squares fit among all nondecreasing ones.
 */
module Isotonic {
  import opened Wrappers
  import opened Sorting

  datatype Point = Point(score: real, target: real)

  /** A block of consecutive points: first and last score, mean label, number of points. */
  datatype Block = Block(low: real, high: real, mean: real, weight: nat)

  /** `zip`: the longer list is cut. */
  function Zip(scores: seq<real>, labels: seq<real>): seq<Point> {
    if scores == [] || labels == [] then []
    else [Point(scores[0], labels[0])] + Zip(scores[1..], labels[1..])
  }

  predicate ByScore(p: Point, q: Point) {
    p.score <= q.score
  }

  function SortedPoints(scores: seq<real>, labels: seq<real>): seq<Point> {
    Sort(ByScore, Zip(scores, labels))
  }

  // Sums

  function Total(xs: seq<real>): real {
    if xs == [] then 0.0 else Total(xs[..|xs| - 1]) + xs[|xs| - 1]
  }

  function Targets(ps: seq<Point>): (ys: seq<real>)
    ensures |ys| == |ps| && forall i :: 0 <= i < |ps| ==> ys[i] == ps[i].target
  {
    seq(|ps|, i requires 0 <= i < |ps| => ps[i].target)
  }

  function Square(x: real): real {
    x * x
  }

  function Squares(ys: seq<real>, zs: seq<real>): (losses: seq<real>)
    requires |ys| == |zs|
    ensures |losses| == |ys| && forall i {:trigger losses[i]} :: 0 <= i < |ys| ==> losses[i] == Square(ys[i] - zs[i])
  {
    seq(|ys|, i requires 0 <= i < |ys| => Square(ys[i] - zs[i]))
  }

  /** The squared error of fitting the values `z` to the labels. */
  function Error(ps: seq<Point>, z: seq<real>): real
    requires |z| == |ps|
  {
    Total(Squares(Targets(ps), z))
  }

  /** The squared distance between two fits. */
  function Distance(y: seq<real>, z: seq<real>): real
    requires |y| == |z|
  {
    Total(Squares(y, z))
  }

  ghost predicate Nondecreasing(z: seq<real>) {
    forall i, j :: 0 <= i < j < |z| ==> z[i] <= z[j]
  }

  function Repeat(x: real, n: nat): (z: seq<real>)
    ensures |z| == n && forall i :: 0 <= i < n ==> z[i] == x
  {
    seq(n, i => x)
  }

  function Flatten<T>(parts: seq<seq<T>>): seq<T> {
    if parts == [] then [] else parts[0] + Flatten(parts[1..])
  }

  /** The value fitted at every sorted point: its block's. */
  function Fitted(parts: seq<seq<Point>>, values: seq<real>): (z: seq<real>)
    requires |parts| == |values|
    ensures |z| == |Flatten(parts)|
  {
    if parts == [] then [] else Repeat(values[0], |parts[0]|) + Fitted(parts[1..], values[1..])
  }

  /** Two neighbouring blocks merged: their span, their weighted mean, their total weight. */
  function Pooled(p: Block, q: Block): Block
    requires p.weight > 0
  {
    Block(p.low, q.high,
          (p.mean * p.weight as real + q.mean * q.weight as real) / (p.weight as real + q.weight as real),
          p.weight + q.weight)
  }

  // What the loop keeps about each block

  /** What each label has above the mean. */
  function Residuals(ps: seq<Point>, mean: real): (rs: seq<real>)
    ensures |rs| == |ps| && forall i :: 0 <= i < |ps| ==> rs[i] == ps[i].target - mean
  {
    seq(|ps|, i requires 0 <= i < |ps| => ps[i].target - mean)
  }

  function Residual(ps: seq<Point>, mean: real): real {
    Total(Residuals(ps, mean))
  }

  /** Every prefix of the block averages at least the block's own mean. */
  ghost predicate Dominated(ps: seq<Point>, mean: real) {
    forall j :: 0 <= j <= |ps| ==> Residual(ps[..j], mean) >= 0.0
  }

  ghost predicate Describes(b: Block, ps: seq<Point>) {
    && ps != [] && b.weight == |ps|
    && b.low == ps[0].score && b.high == ps[|ps| - 1].score
    && Residual(ps, b.mean) == 0.0
    && Dominated(ps, b.mean)
  }

  ghost predicate AllDescribe(blocks: seq<Block>, parts: seq<seq<Point>>) {
    |blocks| == |parts| && forall k :: 0 <= k < |blocks| ==> Describes(blocks[k], parts[k])
  }

  lemma {:induction false} TotalAppend(xs: seq<real>, ys: seq<real>)
    ensures Total(xs + ys) == Total(xs) + Total(ys)
  {
    if ys == [] {
      assert xs + ys == xs;
    } else {
      assert (xs + ys)[..|xs + ys| - 1] == xs + ys[..|ys| - 1];
      TotalAppend(xs, ys[..|ys| - 1]);
    }
  }

  lemma ResidualAppend(ps: seq<Point>, qs: seq<Point>, mean: real)
    ensures Residual(ps + qs, mean) == Residual(ps, mean) + Residual(qs, mean)
  {
    assert Residuals(ps + qs, mean) == Residuals(ps, mean) + Residuals(qs, mean);
    TotalAppend(Residuals(ps, mean), Residuals(qs, mean));
  }

  /** Lowering the mean from `a` to `m` by `d` raises every residual by `d`. */
  lemma {:induction false} ResidualShift(ps: seq<Point>, a: real, m: real, d: real)
    requires d == a - m
    ensures Residual(ps, m) == Residual(ps, a) + |ps| as real * d
  {
    if ps != [] {
      var n := |ps| - 1;
      ResidualShift(ps[..n], a, m, d);
      assert Residuals(ps, m)[..n] == Residuals(ps[..n], m);
      assert Residuals(ps, a)[..n] == Residuals(ps[..n], a);
      assert |ps| as real == n as real + 1.0;
      Distribute(n as real, 1.0, d);
    }
  }

  /** No residual left means the value is the mean. */
  lemma ResidualIsMean(ps: seq<Point>, mean: real)
    ensures Residual(ps, mean) == Total(Targets(ps)) - |ps| as real * mean
  {
    ResidualShift(ps, 0.0, mean, -mean);
    assert Residuals(ps, 0.0) == Targets(ps);
  }

  lemma Distribute(w: real, v: real, x: real)
    ensures (w + v) * x == w * x + v * x
  {
  }

  /** The pooled mean lies between the means `a > b` and balances them. */
  lemma PooledMean(a: real, w: real, b: real, v: real, m: real, x: real, y: real)
    requires a > b && w > 0.0 && v > 0.0 && x == a - m && y == b - m
    requires m * (w + v) == a * w + b * v
    ensures y <= 0.0 <= x && w * x + v * y == 0.0
  {
    Balance(a, w, b, v, m, x, y);
    Between(x, w, y, v);
  }

  lemma PooledTimes(p: Block, q: Block)
    requires p.weight > 0
    ensures Pooled(p, q).mean * (p.weight as real + q.weight as real)
         == p.mean * p.weight as real + q.mean * q.weight as real
  {
  }

  lemma Balance(a: real, w: real, b: real, v: real, m: real, x: real, y: real)
    requires m * (w + v) == a * w + b * v && x == a - m && y == b - m
    ensures w * x + v * y == 0.0
  {
    assert w * x == a * w - m * w;
    assert v * y == b * v - m * v;
    assert m * (w + v) == m * w + m * v;
  }

  lemma Between(x: real, w: real, y: real, v: real)
    requires x > y && w > 0.0 && v > 0.0 && w * x + v * y == 0.0
    ensures y <= 0.0 <= x
  {
    if y > 0.0 {
      Positive(w, x);
      Positive(v, y);
    }
    if x < 0.0 {
      Positive(w, -x);
      Positive(v, -y);
    }
  }

  lemma Positive(w: real, x: real)
    requires w > 0.0 && x > 0.0
    ensures w * x > 0.0
    ensures w * -x < 0.0
  {
  }

  lemma NonnegativeProduct(j: real, x: real)
    requires j >= 0.0 && x >= 0.0
    ensures j * x >= 0.0
  {
  }

  lemma ScaleDown(i: real, v: real, y: real)
    requires i <= v && y <= 0.0
    ensures i * y >= v * y
  {
    NonnegativeProduct(v - i, -y);
    assert (v - i) * -y == i * y - v * y;
  }

  lemma PoolDominates(ps: seq<Point>, a: real, qs: seq<Point>, b: real, m: real, x: real, y: real)
    requires Dominated(ps, a) && Dominated(qs, b) && x == a - m && y == b - m && y <= 0.0 <= x
    requires Residual(ps, a) == 0.0 && |ps| as real * x + |qs| as real * y == 0.0
    ensures Dominated(ps + qs, m)
  {
    forall j | 0 <= j <= |ps + qs| ensures Residual((ps + qs)[..j], m) >= 0.0 {
      PrefixOfPool(ps, qs, j);
      if j <= |ps| {
        assert Residual(ps[..j], a) >= 0.0;
        PoolHead(ps[..j], a, m, x);
      } else {
        var head := qs[..j - |ps|];
        assert Residual(head, b) >= 0.0;
        PoolTail(ps, a, head, b, m, x, y, |qs| as real);
      }
    }
  }

  lemma PrefixOfPool<T>(ps: seq<T>, qs: seq<T>, j: nat)
    requires j <= |ps + qs|
    ensures j <= |ps| ==> (ps + qs)[..j] == ps[..j]
    ensures j > |ps| ==> (ps + qs)[..j] == ps + qs[..j - |ps|]
  {
  }

  lemma PoolHead(ps: seq<Point>, a: real, m: real, x: real)
    requires Residual(ps, a) >= 0.0 && x == a - m && x >= 0.0
    ensures Residual(ps, m) >= 0.0
  {
    ResidualShift(ps, a, m, x);
    NonnegativeProduct(|ps| as real, x);
  }

  lemma PoolTail(ps: seq<Point>, a: real, qs: seq<Point>, b: real, m: real, x: real, y: real, v: real)
    requires Residual(ps, a) == 0.0 && Residual(qs, b) >= 0.0
    requires x == a - m && y == b - m && y <= 0.0
    requires |qs| as real <= v && |ps| as real * x + v * y == 0.0
    ensures Residual(ps + qs, m) >= 0.0
  {
    ResidualAppend(ps, qs, m);
    ResidualShift(ps, a, m, x);
    ResidualShift(qs, b, m, y);
    ScaleDown(|qs| as real, v, y);
  }

  lemma PoolDescribes(p: Block, ps: seq<Point>, q: Block, qs: seq<Point>)
    requires Describes(p, ps) && Describes(q, qs) && p.mean > q.mean
    ensures Describes(Pooled(p, q), ps + qs)
  {
    var m := Pooled(p, q).mean;
    var x, y := p.mean - m, q.mean - m;
    PooledTimes(p, q);
    PooledMean(p.mean, p.weight as real, q.mean, q.weight as real, m, x, y);
    PoolDescribesAt(p, ps, q, qs, m, x, y);
  }

  lemma PoolDescribesAt(p: Block, ps: seq<Point>, q: Block, qs: seq<Point>, m: real, x: real, y: real)
    requires Describes(p, ps) && Describes(q, qs) && x == p.mean - m && y == q.mean - m && y <= 0.0 <= x
    requires p.weight as real * x + q.weight as real * y == 0.0
    ensures Describes(Block(p.low, q.high, m, p.weight + q.weight), ps + qs)
  {
    PoolDominates(ps, p.mean, qs, q.mean, m, x, y);
    ResidualAppend(ps, qs, m);
    ResidualShift(ps, p.mean, m, x);
    ResidualShift(qs, q.mean, m, y);
    assert (ps + qs)[0] == ps[0] && (ps + qs)[|ps + qs| - 1] == qs[|qs| - 1];
  }

  lemma SingletonDescribes(p: Point)
    ensures Describes(Block(p.score, p.score, p.target, 1), [p])
  {
    assert [p][..0] == [] && [p][..1] == [p];
    assert Residuals([p], p.target) == [0.0];
    assert Total([0.0]) == 0.0 by {
      assert [0.0][..0] == [];
    }
  }

  lemma {:induction false} FlattenAppend<T>(a: seq<seq<T>>, b: seq<seq<T>>)
    ensures Flatten(a + b) == Flatten(a) + Flatten(b)
  {
    if a == [] {
      assert a + b == b;
    } else {
      assert (a + b)[0] == a[0] && (a + b)[1..] == a[1..] + b;
      FlattenAppend(a[1..], b);
    }
  }

  lemma SplitPair<T>(parts: seq<T>, i: nat)
    requires i + 1 < |parts|
    ensures parts == parts[..i] + [parts[i]] + ([parts[i + 1]] + parts[i + 2..])
  {
  }

  lemma FlattenSplice<T>(parts: seq<seq<T>>, i: nat)
    requires i + 1 < |parts|
    ensures Flatten(parts[..i] + [parts[i] + parts[i + 1]] + parts[i + 2..]) == Flatten(parts)
  {
    SplitPair(parts, i);
    FlattenMerge(parts[..i], parts[i], parts[i + 1], parts[i + 2..]);
  }

  lemma FlattenMerge<T>(before: seq<seq<T>>, p: seq<T>, q: seq<T>, rest: seq<seq<T>>)
    ensures Flatten(before + [p + q] + rest) == Flatten(before + [p] + ([q] + rest))
  {
    FlattenThree(before, p + q, rest);
    FlattenThree(before, p, [q] + rest);
    FlattenCons(q, rest);
    var r := Flatten(rest);
    assert p + (q + r) == (p + q) + r;
  }

  lemma FlattenThree<T>(before: seq<seq<T>>, p: seq<T>, rest: seq<seq<T>>)
    ensures Flatten(before + [p] + rest) == Flatten(before) + (p + Flatten(rest))
  {
    assert before + [p] + rest == before + ([p] + rest);
    FlattenAppend(before, [p] + rest);
    FlattenCons(p, rest);
  }

  lemma FlattenCons<T>(p: seq<T>, rest: seq<seq<T>>)
    ensures Flatten([p] + rest) == p + Flatten(rest)
  {
    assert ([p] + rest)[1..] == rest;
  }

  function Singletons<T>(ps: seq<T>): (parts: seq<seq<T>>)
    ensures |parts| == |ps| && forall k :: 0 <= k < |ps| ==> parts[k] == [ps[k]]
  {
    seq(|ps|, k requires 0 <= k < |ps| => [ps[k]])
  }

  lemma {:induction false} FlattenSingletons<T>(ps: seq<T>)
    ensures Flatten(Singletons(ps)) == ps
  {
    if ps != [] {
      assert Singletons(ps)[1..] == Singletons(ps[1..]);
      FlattenSingletons(ps[1..]);
    }
  }

  /** Replacing two neighbours by their pooled block keeps the partition and its description. */
  lemma PoolStep(blocks: seq<Block>, parts: seq<seq<Point>>, i: nat)
    requires AllDescribe(blocks, parts) && i + 1 < |blocks|
    requires blocks[i].mean > blocks[i + 1].mean
    ensures blocks[i].weight > 0
    ensures AllDescribe(blocks[..i] + [Pooled(blocks[i], blocks[i + 1])] + blocks[i + 2..],
                        parts[..i] + [parts[i] + parts[i + 1]] + parts[i + 2..])
    ensures Flatten(parts[..i] + [parts[i] + parts[i + 1]] + parts[i + 2..]) == Flatten(parts)
  {
    assert Describes(blocks[i], parts[i]) && Describes(blocks[i + 1], parts[i + 1]);
    PoolDescribes(blocks[i], parts[i], blocks[i + 1], parts[i + 1]);
    SpliceDescribes(blocks, parts, i, Pooled(blocks[i], blocks[i + 1]));
    FlattenSplice(parts, i);
  }

  lemma SpliceDescribes(blocks: seq<Block>, parts: seq<seq<Point>>, i: nat, merged: Block)
    requires AllDescribe(blocks, parts) && i + 1 < |blocks|
    requires Describes(merged, parts[i] + parts[i + 1])
    ensures AllDescribe(blocks[..i] + [merged] + blocks[i + 2..],
                        parts[..i] + [parts[i] + parts[i + 1]] + parts[i + 2..])
  {
    var bs := blocks[..i] + [merged] + blocks[i + 2..];
    var qs := parts[..i] + [parts[i] + parts[i + 1]] + parts[i + 2..];
    forall k | 0 <= k < |bs| ensures Describes(bs[k], qs[k]) {
      if k < i {
        assert Describes(blocks[k], parts[k]);
      } else if k > i {
        assert bs[k] == blocks[k + 1] && qs[k] == parts[k + 1];
      }
    }
  }

  // The loop

  /**
   The fit. `parts` is the partition of the sorted points behind the returned points: block `k`
   ends at score `xs[k]` and has mean label `ys[k]`.
   */
  method Fit(scores: seq<real>, labels: seq<real>)
    returns (xs: seq<real>, ys: seq<real>, ghost parts: seq<seq<Point>>)
    ensures |xs| == |ys| == |parts|
    ensures Flatten(parts) == SortedPoints(scores, labels)
    ensures forall k :: 0 <= k < |xs| ==> EndsAndAverages(parts[k], xs[k], ys[k])
    ensures Nondecreasing(xs) && Nondecreasing(ys)
    ensures Nondecreasing(Fitted(parts, ys)) && LeastSquaresFit(parts, ys)
  {
    var points := SortedPoints(scores, labels);
    if points == [] {
      return [], [], [];
    }
    var blocks := Units(points);
    parts := Singletons(points);
    UnitsDescribe(points);
    var i := 0;
    while i < |blocks| - 1
      invariant 0 <= i <= |blocks| - 1
      invariant AllDescribe(blocks, parts)
      invariant Flatten(parts) == points
      invariant forall k :: 0 <= k < i ==> blocks[k].mean <= blocks[k + 1].mean
      decreases 2 * |blocks| - i
    {
      if blocks[i].mean > blocks[i + 1].mean {
        PoolStep(blocks, parts, i);
        blocks := blocks[..i] + [Pooled(blocks[i], blocks[i + 1])] + blocks[i + 2..];
        parts := parts[..i] + [parts[i] + parts[i + 1]] + parts[i + 2..];
        i := if i - 1 > 0 then i - 1 else 0;
      } else {
        i := i + 1;
      }
    }
    xs := Ends(blocks);
    ys := Means(blocks);
    BlocksAreOptimal(blocks, parts);
    BlocksAverage(blocks, parts);
    AdjacentToAll(ys);
    FittedRises(parts, ys);
    FittedEndsAreSorted(scores, labels, parts, xs, ys);
  }

  lemma FittedEndsAreSorted(
      scores: seq<real>, labels: seq<real>, parts: seq<seq<Point>>, xs: seq<real>, ys: seq<real>)
    requires |xs| == |ys| == |parts| && Flatten(parts) == SortedPoints(scores, labels)
    requires forall k :: 0 <= k < |xs| ==> EndsAndAverages(parts[k], xs[k], ys[k])
    ensures Nondecreasing(xs)
  {
    SortedPointsAreSorted(scores, labels);
    forall k | 0 <= k < |parts| ensures parts[k] != [] && parts[k][|parts[k]| - 1].score == xs[k] {
      assert EndsAndAverages(parts[k], xs[k], ys[k]);
    }
    forall i, j | 0 <= i < j < |xs| ensures xs[i] <= xs[j] {
      EndsAreSorted(Flatten(parts), parts, xs, i, j);
    }
  }

  /** One block for each point. */
  function Units(points: seq<Point>): (blocks: seq<Block>)
    ensures |blocks| == |points|
    ensures forall k :: 0 <= k < |points| ==>
      blocks[k] == Block(points[k].score, points[k].score, points[k].target, 1)
  {
    seq(|points|, k requires 0 <= k < |points| => Block(points[k].score, points[k].score, points[k].target, 1))
  }

  function Ends(blocks: seq<Block>): (xs: seq<real>)
    ensures |xs| == |blocks| && forall k :: 0 <= k < |blocks| ==> xs[k] == blocks[k].high
  {
    seq(|blocks|, k requires 0 <= k < |blocks| => blocks[k].high)
  }

  function Means(blocks: seq<Block>): (ys: seq<real>)
    ensures |ys| == |blocks| && forall k :: 0 <= k < |blocks| ==> ys[k] == blocks[k].mean
  {
    seq(|blocks|, k requires 0 <= k < |blocks| => blocks[k].mean)
  }

  lemma UnitsDescribe(points: seq<Point>)
    ensures AllDescribe(Units(points), Singletons(points))
    ensures Flatten(Singletons(points)) == points
  {
    FlattenSingletons(points);
    forall k | 0 <= k < |points| ensures Describes(Units(points)[k], Singletons(points)[k]) {
      SingletonDescribes(points[k]);
    }
  }

  /** The part ends at score `x` and its labels have mean `y`. */
  ghost predicate EndsAndAverages(part: seq<Point>, x: real, y: real) {
    part != [] && part[|part| - 1].score == x && Total(Targets(part)) == |part| as real * y
  }

  /** No nondecreasing values fit better, and any that differ fit strictly worse. */
  ghost predicate LeastSquaresFit(parts: seq<seq<Point>>, ys: seq<real>)
    requires |parts| == |ys|
  {
    forall z: seq<real> :: |z| == |Flatten(parts)| && Nondecreasing(z) ==>
      Error(Flatten(parts), z) >= Error(Flatten(parts), Fitted(parts, ys)) + Distance(Fitted(parts, ys), z)
  }

  lemma BlocksAreOptimal(blocks: seq<Block>, parts: seq<seq<Point>>)
    requires AllDescribe(blocks, parts)
    ensures LeastSquaresFit(parts, Means(blocks))
  {
    forall z: seq<real> | |z| == |Flatten(parts)| && Nondecreasing(z)
      ensures Error(Flatten(parts), z)
           >= Error(Flatten(parts), Fitted(parts, Means(blocks))) + Distance(Fitted(parts, Means(blocks)), z)
    {
      LeastSquares(blocks, parts, Means(blocks), z);
    }
  }

  lemma BlocksAverage(blocks: seq<Block>, parts: seq<seq<Point>>)
    requires AllDescribe(blocks, parts)
    ensures forall k :: 0 <= k < |blocks| ==> EndsAndAverages(parts[k], Ends(blocks)[k], Means(blocks)[k])
  {
    forall k | 0 <= k < |blocks| ensures EndsAndAverages(parts[k], Ends(blocks)[k], Means(blocks)[k]) {
      assert Describes(blocks[k], parts[k]);
      ResidualIsMean(parts[k], blocks[k].mean);
    }
  }

  lemma {:induction false} AdjacentToAll(z: seq<real>)
    requires forall k :: 0 <= k < |z| - 1 ==> z[k] <= z[k + 1]
    ensures Nondecreasing(z)
  {
    forall i, j | 0 <= i < j < |z| ensures z[i] <= z[j] {
      AdjacentChain(z, i, j);
    }
  }

  lemma {:induction false} AdjacentChain(z: seq<real>, i: nat, j: nat)
    requires forall k :: 0 <= k < |z| - 1 ==> z[k] <= z[k + 1]
    requires i < j < |z|
    ensures z[i] <= z[j]
  {
    if i + 1 < j {
      AdjacentChain(z, i, j - 1);
    }
  }

  // Optimality

  /** The terms of the inner product of the residuals with a fit. */
  function Products(rs: seq<real>, z: seq<real>): (xs: seq<real>)
    requires |z| == |rs|
    ensures |xs| == |rs| && forall i {:trigger xs[i]} :: 0 <= i < |rs| ==> xs[i] == rs[i] * z[i]
  {
    seq(|rs|, i requires 0 <= i < |rs| => rs[i] * z[i])
  }

  lemma SameProduct(a: real, b: real, c: real, d: real)
    requires a == c && b == d
    ensures a * b == c * d
  {
  }

  lemma TotalPrefix(xs: seq<real>, n: nat)
    requires n < |xs|
    ensures Total(xs[..n + 1]) == Total(xs[..n]) + xs[n]
  {
    assert xs[..n + 1][..n] == xs[..n];
  }

  /** Summation by parts: nonnegative partial sums bound the inner product. */
  lemma {:induction false} CrossBound(rs: seq<real>, z: seq<real>, n: nat)
    requires |z| == |rs| && n < |rs| && Nondecreasing(z)
    requires forall j :: 0 <= j <= n ==> Total(rs[..j]) >= 0.0
    ensures Total(Products(rs, z)[..n + 1]) <= Total(rs[..n + 1]) * z[n]
  {
    var xs := Products(rs, z);
    TotalPrefix(rs, n);
    TotalPrefix(xs, n);
    if n > 0 {
      CrossBound(rs, z, n - 1);
      CrossStep(Total(rs[..n]), z[n - 1], rs[n], z[n], Total(xs[..n]), xs[n]);
    }
  }

  lemma CrossStep(s: real, before: real, d: real, last: real, cross: real, term: real)
    requires cross <= s * before && s >= 0.0 && before <= last && term == d * last
    ensures cross + term <= (s + d) * last
  {
    NonnegativeProduct(s, last - before);
    assert s * (last - before) == s * last - s * before;
    Distribute(s, d, last);
  }

  /** Termwise: the squared error splits at the mean `m`. */
  lemma SquareSplit(y: real, m: real, z: real)
    ensures Square(y - z) == Square(y - m) + Square(m - z) + 2.0 * ((y - m) * m) - 2.0 * ((y - m) * z)
  {
  }

  lemma {:induction false} TotalSplit(e: seq<real>, f: seq<real>, d: seq<real>, a: seq<real>, b: seq<real>)
    requires |e| == |f| == |d| == |a| == |b|
    requires forall i :: 0 <= i < |e| ==> e[i] == f[i] + d[i] + 2.0 * a[i] - 2.0 * b[i]
    ensures Total(e) == Total(f) + Total(d) + 2.0 * Total(a) - 2.0 * Total(b)
  {
    if e != [] {
      var n := |e| - 1;
      TotalSplit(e[..n], f[..n], d[..n], a[..n], b[..n]);
    }
  }

  lemma {:induction false} TotalScaled(rs: seq<real>, z: seq<real>, m: real, n: nat)
    requires |rs| == |z| && n <= |rs| && forall i :: 0 <= i < |z| ==> z[i] == m
    ensures Total(Products(rs, z)[..n]) == Total(rs[..n]) * m
  {
    if n > 0 {
      var xs := Products(rs, z);
      TotalScaled(rs, z, m, n - 1);
      TotalPrefix(rs, n - 1);
      TotalPrefix(xs, n - 1);
      SameProduct(rs[n - 1], z[n - 1], rs[n - 1], m);
      Distribute(Total(rs[..n - 1]), rs[n - 1], m);
    }
  }

  lemma BlockOptimal(b: Block, ps: seq<Point>, z: seq<real>)
    requires Describes(b, ps) && |z| == |ps| && Nondecreasing(z)
    ensures Error(ps, z) >= Error(ps, Repeat(b.mean, |ps|)) + Distance(Repeat(b.mean, |ps|), z)
  {
    ErrorSplit(ps, b.mean, z);
    ConstantCross(ps, b.mean);
    CrossNonpositive(ps, b.mean, z);
  }

  lemma ConstantCross(ps: seq<Point>, m: real)
    requires Residual(ps, m) == 0.0
    ensures Total(Products(Residuals(ps, m), Repeat(m, |ps|))) == 0.0
  {
    var rs, c := Residuals(ps, m), Repeat(m, |ps|);
    TotalScaled(rs, c, m, |ps|);
    assert rs[..|ps|] == rs && Products(rs, c)[..|ps|] == Products(rs, c);
    Vanishes(Total(rs), m);
  }

  lemma CrossNonpositive(ps: seq<Point>, m: real, z: seq<real>)
    requires |z| == |ps| && ps != [] && Nondecreasing(z)
    requires Residual(ps, m) == 0.0 && Dominated(ps, m)
    ensures Total(Products(Residuals(ps, m), z)) <= 0.0
  {
    PrefixResiduals(ps, m);
    var rs := Residuals(ps, m);
    var n := |ps| - 1;
    CrossBound(rs, z, n);
    assert rs[..n + 1] == rs && Products(rs, z)[..n + 1] == Products(rs, z);
    Vanishes(Total(Residuals(ps, m)), z[|z| - 1]);
  }

  lemma ErrorSplit(ps: seq<Point>, m: real, z: seq<real>)
    requires |z| == |ps|
    ensures Error(ps, z) == Error(ps, Repeat(m, |ps|)) + Distance(Repeat(m, |ps|), z)
      + 2.0 * Total(Products(Residuals(ps, m), Repeat(m, |ps|))) - 2.0 * Total(Products(Residuals(ps, m), z))
  {
    var y, c, rs := Targets(ps), Repeat(m, |ps|), Residuals(ps, m);
    TermsSplit(ps, m, z);
    TotalSplit(Squares(y, z), Squares(y, c), Squares(c, z), Products(rs, c), Products(rs, z));
  }

  lemma PrefixResiduals(ps: seq<Point>, m: real)
    requires Dominated(ps, m)
    ensures forall j :: 0 <= j <= |ps| ==> Total(Residuals(ps, m)[..j]) >= 0.0
  {
    forall j | 0 <= j <= |ps| ensures Total(Residuals(ps, m)[..j]) >= 0.0 {
      assert Residuals(ps, m)[..j] == Residuals(ps[..j], m);
      assert Residual(ps[..j], m) >= 0.0;
    }
  }

  lemma TermsSplit(ps: seq<Point>, m: real, z: seq<real>)
    requires |z| == |ps|
    ensures forall i :: 0 <= i < |ps| ==>
      Squares(Targets(ps), z)[i]
        == Squares(Targets(ps), Repeat(m, |ps|))[i] + Squares(Repeat(m, |ps|), z)[i]
           + 2.0 * Products(Residuals(ps, m), Repeat(m, |ps|))[i] - 2.0 * Products(Residuals(ps, m), z)[i]
  {
    var y, c, rs := Targets(ps), Repeat(m, |ps|), Residuals(ps, m);
    forall i | 0 <= i < |ps|
      ensures Squares(y, z)[i]
        == Squares(y, c)[i] + Squares(c, z)[i] + 2.0 * Products(rs, c)[i] - 2.0 * Products(rs, z)[i]
    {
      SquareSplit(ps[i].target, m, z[i]);
      SameProduct(rs[i], c[i], ps[i].target - m, m);
      SameProduct(rs[i], z[i], ps[i].target - m, z[i]);
    }
  }

  lemma Vanishes(residual: real, x: real)
    requires residual == 0.0
    ensures residual * x == 0.0
  {
  }

  lemma ErrorAppend(ps: seq<Point>, y: seq<real>, qs: seq<Point>, z: seq<real>)
    requires |y| == |ps| && |z| == |qs|
    ensures Error(ps + qs, y + z) == Error(ps, y) + Error(qs, z)
  {
    assert Targets(ps + qs) == Targets(ps) + Targets(qs);
    DistanceAppend(Targets(ps), y, Targets(qs), z);
  }

  lemma DistanceAppend(x: seq<real>, y: seq<real>, u: seq<real>, v: seq<real>)
    requires |x| == |y| && |u| == |v|
    ensures Distance(x + u, y + v) == Distance(x, y) + Distance(u, v)
  {
    assert Squares(x + u, y + v) == Squares(x, y) + Squares(u, v);
    TotalAppend(Squares(x, y), Squares(u, v));
  }

  /** Blocks that each dominate their prefixes add up to the least-squares nondecreasing fit. */
  lemma {:induction false} LeastSquares(blocks: seq<Block>, parts: seq<seq<Point>>, ys: seq<real>, z: seq<real>)
    requires AllDescribe(blocks, parts) && |ys| == |blocks|
    requires forall k :: 0 <= k < |blocks| ==> ys[k] == blocks[k].mean
    requires |z| == |Flatten(parts)| && Nondecreasing(z)
    ensures Error(Flatten(parts), z)
         >= Error(Flatten(parts), Fitted(parts, ys)) + Distance(Fitted(parts, ys), z)
  {
    if parts != [] {
      var n := |parts[0]|;
      var rest := Flatten(parts[1..]);
      var head, tail := z[..n], z[n..];
      assert z == head + tail;
      BlockOptimal(blocks[0], parts[0], head);
      LeastSquares(blocks[1..], parts[1..], ys[1..], tail);
      ErrorAppend(parts[0], head, rest, tail);
      var fit := Fitted(parts[1..], ys[1..]);
      ErrorAppend(parts[0], Repeat(ys[0], n), rest, fit);
      DistanceAppend(Repeat(ys[0], n), head, fit, tail);
    }
  }

  /** The fitted values rise along the sorted points, so the fit competes with those it beats. */
  lemma {:induction false} FittedRises(parts: seq<seq<Point>>, ys: seq<real>)
    requires |parts| == |ys| && Nondecreasing(ys)
    ensures Nondecreasing(Fitted(parts, ys))
    ensures parts != [] ==> forall i :: 0 <= i < |Fitted(parts, ys)| ==> ys[0] <= Fitted(parts, ys)[i]
  {
    if parts != [] {
      var n, rest := |parts[0]|, Fitted(parts[1..], ys[1..]);
      FittedRises(parts[1..], ys[1..]);
      assert forall i :: 0 <= i < |rest| ==> Fitted(parts, ys)[n + i] == rest[i];
      assert |parts| > 1 ==> ys[1..][0] == ys[1];
    }
  }

  /** The least-squares fit is unique: a rival that does as well is the same fit. */
  lemma BestFitIsUnique(parts: seq<seq<Point>>, ys: seq<real>, z: seq<real>)
    requires |parts| == |ys| && LeastSquaresFit(parts, ys)
    requires |z| == |Flatten(parts)| && Nondecreasing(z)
    requires Error(Flatten(parts), z) <= Error(Flatten(parts), Fitted(parts, ys))
    ensures z == Fitted(parts, ys)
  {
    var y := Fitted(parts, ys);
    assert Distance(y, z) <= 0.0;
    forall i | 0 <= i < |z| ensures z[i] == y[i] {
      NonnegativeTerms(Squares(y, z), y, z, |z|, i);
      assert Squares(y, z)[..|z|] == Squares(y, z);
    }
  }

  lemma SquareOfNegation(x: real, y: real)
    requires y == -x
    ensures Square(x) == Square(y)
  {
  }

  lemma PositiveProduct(a: real, b: real, product: real)
    requires a > 0.0 && b > 0.0 && product == a * b
    ensures product > 0.0
  {
  }

  lemma SquareSign(x: real)
    ensures Square(x) >= 0.0 && (Square(x) <= 0.0 ==> x == 0.0)
  {
    if x > 0.0 {
      PositiveProduct(x, x, Square(x));
    } else if x < 0.0 {
      SquareOfNegation(x, -x);
      PositiveProduct(-x, -x, Square(-x));
    }
  }

  lemma {:induction false} NonnegativeTerms(xs: seq<real>, y: seq<real>, z: seq<real>, n: nat, i: nat)
    requires |y| == |z| && xs == Squares(y, z) && n <= |xs|
    ensures Total(xs[..n]) >= 0.0
    ensures i < n && Total(xs[..n]) <= 0.0 ==> y[i] == z[i]
  {
    if n > 0 {
      TotalPrefix(xs, n - 1);
      SquareSign(y[n - 1] - z[n - 1]);
      NonnegativeTerms(xs, y, z, n - 1, i);
    }
  }

  // Prediction

  function Clip(x: real, low: real, high: real): real {
    var capped := if high < x then high else x;
    if low > capped then low else capped
  }

  /** The value paired with the first point not below the score. */
  function FirstNotBelow(xs: seq<real>, ys: seq<real>, score: real): Option<real> {
    if xs == [] || ys == [] then None
    else if score <= xs[0] then Some(ys[0])
    else FirstNotBelow(xs[1..], ys[1..], score)
  }

  /** Without points the score itself, clipped; beyond all points the last value, if there is one. */
  function Predict(xs: seq<real>, ys: seq<real>, score: real): Option<real> {
    if xs == [] then Some(Clip(score, 0.0, 1.0))
    else if FirstNotBelow(xs, ys, score).Some? then FirstNotBelow(xs, ys, score)
    else if ys == [] then None
    else Some(ys[|ys| - 1])
  }

  method IsotonicPredict(xs: seq<real>, ys: seq<real>, score: real) returns (y: Option<real>)
    ensures y == Predict(xs, ys, score)
    ensures y.None? <==> xs != [] && ys == []
  {
    if xs == [] {
      return Some(Clip(score, 0.0, 1.0));
    }
    var i := 0;
    assert xs[0..] == xs && ys[0..] == ys;
    while i < |xs| && i < |ys|
      invariant 0 <= i <= |xs| && i <= |ys|
      invariant FirstNotBelow(xs, ys, score) == FirstNotBelow(xs[i..], ys[i..], score)
    {
      if score <= xs[i] {
        return Some(ys[i]);
      }
      assert xs[i..][1..] == xs[i + 1..] && ys[i..][1..] == ys[i + 1..];
      i := i + 1;
    }
    y := if ys == [] then None else Some(ys[|ys| - 1]);
  }

  /** Which point answers for a score. */
  lemma {:induction false} FirstNotBelowPicks(xs: seq<real>, ys: seq<real>, score: real) returns (k: nat)
    ensures k <= |xs| && k <= |ys| && forall j :: 0 <= j < k ==> xs[j] < score
    ensures if k < |xs| && k < |ys| then score <= xs[k] && FirstNotBelow(xs, ys, score) == Some(ys[k])
      else FirstNotBelow(xs, ys, score).None?
  {
    if xs == [] || ys == [] || score <= xs[0] {
      k := 0;
    } else {
      var r := FirstNotBelowPicks(xs[1..], ys[1..], score);
      k := r + 1;
      assert forall j :: 0 < j < k ==> xs[j] == xs[1..][j - 1];
    }
  }

  /** A higher score never predicts lower, whatever nondecreasing values were fitted. */
  lemma PredictMonotone(xs: seq<real>, ys: seq<real>, s: real, t: real)
    requires Nondecreasing(ys) && s <= t && (xs == [] || ys != [])
    ensures Predict(xs, ys, s).Some? && Predict(xs, ys, t).Some?
    ensures Predict(xs, ys, s).value <= Predict(xs, ys, t).value
  {
    if xs != [] {
      var i := FirstNotBelowPicks(xs, ys, s);
      var j := FirstNotBelowPicks(xs, ys, t);
    }
  }

  /**
   At a fitted end point the prediction is the value fitted there exactly when no earlier block
   ends at the same score with another value; ties between blocks go to the lower block.
   */
  lemma PredictAtBlockEnd(xs: seq<real>, ys: seq<real>, k: nat)
    requires |xs| == |ys| && k < |xs| && Nondecreasing(xs) && Nondecreasing(ys)
    ensures Predict(xs, ys, xs[k]).Some? && Predict(xs, ys, xs[k]).value <= ys[k]
    ensures Predict(xs, ys, xs[k]) == Some(ys[k]) <==> forall j :: 0 <= j < k && xs[j] == xs[k] ==> ys[j] == ys[k]
  {
    var i := FirstNotBelowPicks(xs, ys, xs[k]);
    assert i <= k;
    if i < k {
      assert xs[i] == xs[k];
    }
  }

  /** The end points of a partition of sorted points are themselves sorted. */
  lemma {:induction false} EndsAreSorted(points: seq<Point>, parts: seq<seq<Point>>, xs: seq<real>, i: nat, j: nat)
    requires Sorted(ByScore, points) && points == Flatten(parts) && |xs| == |parts|
    requires forall k :: 0 <= k < |parts| ==> parts[k] != [] && parts[k][|parts[k]| - 1].score == xs[k]
    requires i < j < |xs|
    ensures xs[i] <= xs[j]
    decreases i
  {
    var n, rest := |parts[0]|, Flatten(parts[1..]);
    assert forall k :: 0 <= k < |rest| ==> points[n + k] == rest[k];
    if i > 0 {
      assert Sorted(ByScore, rest);
      EndsAreSorted(rest, parts[1..], xs[1..], i - 1, j - 1);
    } else {
      var p := LastOf(parts[1..], j - 1);
      assert ByScore(points[n - 1], points[n + p]);
    }
  }

  /** Where part `k` ends in the flattened list. */
  lemma {:induction false} LastOf(parts: seq<seq<Point>>, k: nat) returns (p: nat)
    requires k < |parts| && forall i :: 0 <= i < |parts| ==> parts[i] != []
    ensures p < |Flatten(parts)| && Flatten(parts)[p] == parts[k][|parts[k]| - 1]
  {
    if k == 0 {
      p := |parts[0]| - 1;
    } else {
      var q := LastOf(parts[1..], k - 1);
      p := |parts[0]| + q;
    }
  }

  lemma SortedPointsAreSorted(scores: seq<real>, labels: seq<real>)
    ensures Sorted(ByScore, SortedPoints(scores, labels))
    ensures multiset(SortedPoints(scores, labels)) == multiset(Zip(scores, labels))
  {
    SortSorts(ByScore, Zip(scores, labels));
    SortPermutes(ByScore, Zip(scores, labels));
  }
}
