/**
 Batching of evaluation tasks: tasks of one transfer episode form one unit, in their order, and
 units are packed into batches without splitting any of them.
 */
module Batching {
  import opened Scalars
  import opened Sorting

  datatype Task = Task(id: Text, episode: Text, transfer: bool, order: int)

  type Unit = seq<Task>

  predicate Episodic(t: Task) {
    t.transfer && t.episode != []
  }

  /** `(episode_order, task_id)`. */
  predicate Precedes(a: Task, b: Task) {
    a.order < b.order || (a.order == b.order && TextLeq(a.id, b.id))
  }

  function Flatten(units: seq<Unit>): seq<Task> {
    if units == [] then [] else Flatten(units[..|units| - 1]) + units[|units| - 1]
  }

  lemma {:induction false} FlattenAppend(a: seq<Unit>, b: seq<Unit>)
    ensures Flatten(a + b) == Flatten(a) + Flatten(b)
  {
    if b == [] {
      assert a + b == a;
    } else {
      var n := |b| - 1;
      assert (a + b)[..|a + b| - 1] == a + b[..n];
      FlattenAppend(a, b[..n]);
    }
  }

  lemma FlattenOne(u: Unit)
    ensures Flatten([u]) == u
  {
    assert [u][..0] == [];
  }

  // Units

  predicate HoldsEpisode(u: Unit, episode: Text) {
    u != [] && Episodic(u[0]) && u[0].episode == episode
  }

  /** Tasks of one episode, or one task outside any. */
  predicate UnitOk(u: Unit) {
    && u != []
    && (forall k :: 0 <= k < |u| ==> SameEpisode(u[k], u[0]))
    && (!Episodic(u[0]) ==> |u| == 1)
  }

  predicate SameEpisode(a: Task, b: Task) {
    Episodic(a) == Episodic(b) && (Episodic(b) ==> a.episode == b.episode)
  }

  predicate Separate(u: Unit, v: Unit)
    requires u != [] && v != []
  {
    Episodic(u[0]) && Episodic(v[0]) ==> u[0].episode != v[0].episode
  }

  ghost predicate Kinds(units: seq<Unit>) {
    && (forall i :: 0 <= i < |units| ==> UnitOk(units[i]))
    && forall i, j :: 0 <= i < j < |units| ==> Separate(units[i], units[j])
  }

  /** The units are the tasks, grouped by episode. */
  ghost predicate Grouped(units: seq<Unit>, tasks: seq<Task>) {
    multiset(Flatten(units)) == multiset(tasks) && Kinds(units)
  }

  ghost predicate Locates(episodes: map<Text, nat>, units: seq<Unit>) {
    && (forall e :: e in episodes ==> episodes[e] < |units| && HoldsEpisode(units[episodes[e]], e))
    && forall i :: 0 <= i < |units| && units[i] != [] && Episodic(units[i][0]) ==>
         units[i][0].episode in episodes && episodes[units[i][0].episode] == i
  }

  lemma {:induction false} FlattenUpdate(units: seq<Unit>, i: nat, u: Unit)
    requires i < |units|
    ensures multiset(Flatten(units[i := u])) + multiset(units[i]) == multiset(Flatten(units)) + multiset(u)
  {
    var n := |units| - 1;
    var updated := units[i := u];
    if i < n {
      assert updated[..n] == units[..n][i := u] && updated[n] == units[n] && units[..n][i] == units[i];
      FlattenUpdate(units[..n], i, u);
      assert multiset(Flatten(updated)) == multiset(Flatten(updated[..n])) + multiset(units[n]);
      assert multiset(Flatten(units)) == multiset(Flatten(units[..n])) + multiset(units[n]);
      BothGrow(multiset(Flatten(updated[..n])), multiset(units[i]), multiset(Flatten(units[..n])), multiset(u), multiset(units[n]));
    } else {
      assert updated[..n] == units[..n];
    }
  }

  lemma BothGrow(a: multiset<Task>, b: multiset<Task>, c: multiset<Task>, d: multiset<Task>, more: multiset<Task>)
    requires a + b == c + d
    ensures (a + more) + b == (c + more) + d
  {
    forall x ensures ((a + more) + b)[x] == ((c + more) + d)[x] {
      assert (a + b)[x] == (c + d)[x];
    }
  }

  lemma KindsWithNew(units: seq<Unit>, episodes: map<Text, nat>, t: Task)
    requires Kinds(units) && Locates(episodes, units) && (Episodic(t) ==> t.episode !in episodes)
    ensures Kinds(units + [[t]])
    ensures Locates(if Episodic(t) then episodes[t.episode := |units|] else episodes, units + [[t]])
  {
    var more := units + [[t]];
    forall i, j | 0 <= i < j < |more| ensures UnitOk(more[i]) && UnitOk(more[j]) && Separate(more[i], more[j]) {
      assert UnitOk([t]);
      assert i < |units| && UnitOk(units[i]);
      if j < |units| {
        assert Separate(units[i], units[j]);
      }
    }
  }

  lemma GroupedWithNew(units: seq<Unit>, tasks: seq<Task>, episodes: map<Text, nat>, t: Task)
    requires Grouped(units, tasks) && Locates(episodes, units) && (Episodic(t) ==> t.episode !in episodes)
    ensures Grouped(units + [[t]], tasks + [t])
    ensures Locates(if Episodic(t) then episodes[t.episode := |units|] else episodes, units + [[t]])
  {
    FlattenAppend(units, [[t]]);
    FlattenOne([t]);
    KindsWithNew(units, episodes, t);
  }

  lemma KindsWithUpdate(units: seq<Unit>, i: nat, u: Unit)
    requires Kinds(units) && i < |units| && UnitOk(u) && SameEpisode(u[0], units[i][0])
    ensures Kinds(units[i := u])
  {
    var updated := units[i := u];
    forall j, k | 0 <= j < k < |updated| ensures Separate(updated[j], updated[k]) {
      assert Separate(units[j], units[k]) && UnitOk(units[j]) && UnitOk(units[k]);
    }
  }

  lemma GroupedWithKnown(units: seq<Unit>, tasks: seq<Task>, episodes: map<Text, nat>, t: Task)
    requires Grouped(units, tasks) && Locates(episodes, units) && Episodic(t) && t.episode in episodes
    ensures Grouped(units[episodes[t.episode] := units[episodes[t.episode]] + [t]], tasks + [t])
    ensures Locates(episodes, units[episodes[t.episode] := units[episodes[t.episode]] + [t]])
  {
    var i := episodes[t.episode];
    var u := units[i] + [t];
    UnitGrows(units[i], t);
    KindsWithUpdate(units, i, u);
    FlattenUpdate(units, i, u);
    AddedOnce(multiset(Flatten(units[i := u])), multiset(units[i]), multiset(Flatten(units)), t);
    SameLocations(units, episodes, i, u);
  }

  lemma UnitGrows(u: Unit, t: Task)
    requires UnitOk(u) && Episodic(u[0]) && SameEpisode(t, u[0])
    ensures UnitOk(u + [t]) && (u + [t])[0] == u[0]
  {
    var v := u + [t];
    forall k | 0 <= k < |v| ensures SameEpisode(v[k], v[0]) {
      if k < |u| {
        assert SameEpisode(u[k], u[0]);
      }
    }
  }

  lemma SameLocations(units: seq<Unit>, episodes: map<Text, nat>, i: nat, u: Unit)
    requires Locates(episodes, units) && i < |units| && units[i] != [] && u != [] && u[0] == units[i][0]
    ensures Locates(episodes, units[i := u])
  {
  }

  lemma AddedOnce(after: multiset<Task>, unit: multiset<Task>, before: multiset<Task>, t: Task)
    requires after + unit == before + (unit + multiset{t})
    ensures after == before + multiset{t}
  {
    forall x ensures after[x] == (before + multiset{t})[x] {
      assert (after + unit)[x] == (before + (unit + multiset{t}))[x];
    }
  }

  /** The lists behind the dictionary are the units themselves; here the dictionary holds their places. */
  method GroupTasks(tasks: seq<Task>) returns (units: seq<Unit>)
    ensures Grouped(units, tasks)
  {
    units := [];
    var episodes: map<Text, nat> := map[];
    for k := 0 to |tasks|
      invariant Grouped(units, tasks[..k]) && Locates(episodes, units)
    {
      var t := tasks[k];
      assert tasks[..k + 1] == tasks[..k] + [t];
      if Episodic(t) && t.episode in episodes {
        GroupedWithKnown(units, tasks[..k], episodes, t);
        var i := episodes[t.episode];
        units := units[i := units[i] + [t]];
      } else {
        GroupedWithNew(units, tasks[..k], episodes, t);
        if Episodic(t) {
          episodes := episodes[t.episode := |units|];
        }
        units := units + [[t]];
      }
    }
    assert tasks[..|tasks|] == tasks;
  }

  ghost predicate UnitsInOrder(units: seq<Unit>) {
    forall i :: 0 <= i < |units| ==> Sorted(Precedes, units[i])
  }

  lemma PrecedesIsTotal()
    ensures TotalPreorder(Precedes)
  {
    forall a: Task, b: Task ensures Precedes(a, b) || Precedes(b, a) {
      TextLeqTotal(a.id, b.id);
    }
    forall a: Task, b: Task, c: Task | Precedes(a, b) && Precedes(b, c) ensures Precedes(a, c) {
      if a.order == b.order == c.order {
        TextLeqTransitive(a.id, b.id, c.id);
      }
    }
  }

  lemma SortedUnit(u: Unit)
    ensures Sorted(Precedes, Sort(Precedes, u)) && multiset(Sort(Precedes, u)) == multiset(u)
    ensures |Sort(Precedes, u)| == |u|
  {
    PrecedesIsTotal();
    SortSorts(Precedes, u);
    SortPermutes(Precedes, u);
  }

  lemma SortedUnitIsOk(u: Unit)
    requires UnitOk(u)
    ensures UnitOk(Sort(Precedes, u)) && SameEpisode(Sort(Precedes, u)[0], u[0])
  {
    var v := Sort(Precedes, u);
    SortedUnit(u);
    forall k | 0 <= k < |v| ensures SameEpisode(v[k], u[0]) {
      assert v[k] in multiset(u);
      var j :| 0 <= j < |u| && u[j] == v[k];
    }
  }

  lemma SortedUnitKeepsGroup(units: seq<Unit>, tasks: seq<Task>, i: nat)
    requires Grouped(units, tasks) && i < |units|
    ensures Grouped(units[i := Sort(Precedes, units[i])], tasks)
  {
    SortedUnit(units[i]);
    FlattenUpdate(units, i, Sort(Precedes, units[i]));
    SortedUnitIsOk(units[i]);
    KindsWithUpdate(units, i, Sort(Precedes, units[i]));
    SameAfter(multiset(Flatten(units[i := Sort(Precedes, units[i])])), multiset(Flatten(units)), multiset(units[i]));
  }

  lemma SameAfter(a: multiset<Task>, b: multiset<Task>, c: multiset<Task>)
    requires a + c == b + c
    ensures a == b
  {
    forall x ensures a[x] == b[x] {
      assert (a + c)[x] == (b + c)[x];
    }
  }

  /** Units of one task or one whole episode, each in its order; together they are the tasks. */
  method EvaluationUnits(tasks: seq<Task>) returns (units: seq<Unit>)
    ensures Grouped(units, tasks) && UnitsInOrder(units)
  {
    units := GroupTasks(tasks);
    var n := |units|;
    for i := 0 to n
      invariant |units| == n && Grouped(units, tasks)
      invariant forall k :: 0 <= k < i ==> Sorted(Precedes, units[k])
    {
      if |units[i]| > 1 {
        SortedUnitKeepsGroup(units, tasks, i);
        SortedUnit(units[i]);
        units := units[i := Sort(Precedes, units[i])];
      }
    }
  }

  lemma {:induction false} FlattenHolds(units: seq<Unit>, t: Task) returns (i: nat)
    requires t in Flatten(units)
    ensures i < |units| && t in units[i]
  {
    var n := |units| - 1;
    if t in units[n] {
      i := n;
    } else {
      i := FlattenHolds(units[..n], t);
    }
  }

  /** All tasks of one transfer episode are in one unit. */
  lemma EpisodeInOneUnit(units: seq<Unit>, tasks: seq<Task>, a: Task, b: Task) returns (i: nat)
    requires Grouped(units, tasks) && a in tasks && b in tasks
    requires Episodic(a) && Episodic(b) && a.episode == b.episode
    ensures i < |units| && a in units[i] && b in units[i]
  {
    assert a in multiset(Flatten(units)) && b in multiset(Flatten(units));
    i := FlattenHolds(units, a);
    var j := FlattenHolds(units, b);
    var k :| 0 <= k < |units[i]| && units[i][k] == a;
    var l :| 0 <= l < |units[j]| && units[j][l] == b;
    assert SameEpisode(units[i][k], units[i][0]) && SameEpisode(units[j][l], units[j][0]);
    OneUnitPerEpisode(units, i, j);
  }

  lemma OneUnitPerEpisode(units: seq<Unit>, i: nat, j: nat)
    requires Kinds(units) && i < |units| && j < |units|
    ensures units[i] != [] && units[j] != []
    ensures Episodic(units[i][0]) && Episodic(units[j][0]) && units[i][0].episode == units[j][0].episode ==> i == j
  {
    assert UnitOk(units[i]) && UnitOk(units[j]);
    assert i < j ==> Separate(units[i], units[j]);
    assert j < i ==> Separate(units[j], units[i]);
  }

  // Batches

  /** The batch is made of the units from one cut to the next, at least one of them. */
  predicate CutAt(units: seq<Unit>, batch: seq<Task>, cuts: seq<nat>, i: nat) {
    i + 1 < |cuts| && cuts[i] < cuts[i + 1] <= |units| && batch == Flatten(units[cuts[i]..cuts[i + 1]])
  }

  /** `cuts` are the places where the list of units is cut into batches. */
  ghost predicate CutInto(units: seq<Unit>, batches: seq<seq<Task>>, cuts: seq<nat>) {
    && |cuts| == |batches| + 1 && cuts[0] == 0 && cuts[|batches|] <= |units|
    && forall i :: 0 <= i < |batches| ==> CutAt(units, batches[i], cuts, i)
  }

  /** A batch is within the size, or is a single unit; it was closed only when full or when the next unit would not fit. */
  predicate PackedAt(units: seq<Unit>, batch: seq<Task>, cuts: seq<nat>, i: nat, size: nat) {
    && i + 1 < |cuts|
    && (|batch| <= size || cuts[i] + 1 == cuts[i + 1])
    && (|batch| >= size || cuts[i + 1] >= |units| || |batch| + |units[cuts[i + 1]]| > size)
  }

  ghost predicate Packed(units: seq<Unit>, batches: seq<seq<Task>>, cuts: seq<nat>, size: nat) {
    forall i :: 0 <= i < |batches| ==> PackedAt(units, batches[i], cuts, i, size)
  }

  lemma CutOnce(units: seq<Unit>, batches: seq<seq<Task>>, cuts: seq<nat>, batch: seq<Task>, cut: nat, size: nat)
    requires CutInto(units, batches, cuts) && cuts[|batches|] < cut <= |units| && Packed(units, batches, cuts, size)
    requires batch == Flatten(units[cuts[|batches|]..cut])
    requires |batch| <= size || cuts[|batches|] + 1 == cut
    requires |batch| >= size || cut == |units| || |batch| + |units[cut]| > size
    ensures CutInto(units, batches + [batch], cuts + [cut]) && Packed(units, batches + [batch], cuts + [cut], size)
  {
    var b, c := batches + [batch], cuts + [cut];
    forall i | 0 <= i < |b| ensures CutAt(units, b[i], c, i) && PackedAt(units, b[i], c, i, size) {
      if i < |batches| {
        assert CutAt(units, batches[i], cuts, i) && PackedAt(units, batches[i], cuts, i, size);
        assert c[i] == cuts[i] && c[i + 1] == cuts[i + 1];
      }
    }
  }

  lemma OneMoreUnit(units: seq<Unit>, from: nat, k: nat)
    requires from <= k < |units|
    ensures Flatten(units[from..k + 1]) == Flatten(units[from..k]) + units[k]
  {
    assert units[from..k + 1] == units[from..k] + [units[k]];
    FlattenAppend(units[from..k], [units[k]]);
    FlattenOne(units[k]);
  }

  /** Packs units into batches. */
  method TrainBatches(units: seq<Unit>, minibatch: int) returns (batches: seq<seq<Task>>, ghost cuts: seq<nat>)
    requires forall i :: 0 <= i < |units| ==> units[i] != []
    ensures CutInto(units, batches, cuts) && cuts[|batches|] == |units|
    ensures var size := if minibatch < 1 then 1 else minibatch;
      && Packed(units, batches, cuts, size)
      && forall i :: 0 <= i < |batches| ==> |batches[i]| <= size || batches[i] in units
    ensures Flatten(batches) == Flatten(units)
  {
    var size: nat := if minibatch < 1 then 1 else minibatch;
    var current: seq<Task>, currentSize: nat := [], 0;
    batches, cuts := [], [0];
    for k := 0 to |units|
      invariant CutInto(units, batches, cuts) && cuts[|batches|] <= k
      invariant current == Flatten(units[cuts[|batches|]..k]) && currentSize == |current| && currentSize < size
      invariant current == [] <==> cuts[|batches|] == k
      invariant Packed(units, batches, cuts, size)
    {
      var unit := units[k];
      if current != [] && currentSize + |unit| > size {
        CutOnce(units, batches, cuts, current, k, size);
        batches, cuts := batches + [current], cuts + [k];
        current, currentSize := [], 0;
        assert units[k..k] == [];
      }
      OneMoreUnit(units, cuts[|batches|], k);
      current, currentSize := current + unit, currentSize + |unit|;
      if currentSize >= size {
        CutOnce(units, batches, cuts, current, k + 1, size);
        batches, cuts := batches + [current], cuts + [k + 1];
        current, currentSize := [], 0;
        assert units[k + 1..k + 1] == [];
      }
    }
    if current != [] {
      CutOnce(units, batches, cuts, current, |units|, size);
      batches, cuts := batches + [current], cuts + [|units|];
    }
    CutBatches(units, batches, cuts, size);
  }

  lemma CutBatches(units: seq<Unit>, batches: seq<seq<Task>>, cuts: seq<nat>, size: nat)
    requires CutInto(units, batches, cuts) && Packed(units, batches, cuts, size) && cuts[|batches|] == |units|
    ensures Flatten(batches) == Flatten(units)
    ensures forall i :: 0 <= i < |batches| ==> |batches[i]| <= size || batches[i] in units
  {
    BatchesConserve(units, batches, cuts);
    assert units[..|units|] == units;
    LargeBatchIsUnit(units, batches, cuts, size);
  }

  lemma LargeBatchIsUnit(units: seq<Unit>, batches: seq<seq<Task>>, cuts: seq<nat>, size: nat)
    requires CutInto(units, batches, cuts) && Packed(units, batches, cuts, size)
    ensures forall i :: 0 <= i < |batches| ==> |batches[i]| <= size || batches[i] in units
  {
    forall i | 0 <= i < |batches| && |batches[i]| > size ensures batches[i] in units {
      assert CutAt(units, batches[i], cuts, i) && PackedAt(units, batches[i], cuts, i, size);
      assert units[cuts[i]..cuts[i] + 1] == [units[cuts[i]]];
      FlattenOne(units[cuts[i]]);
    }
  }

  lemma CutPrefix(units: seq<Unit>, batches: seq<seq<Task>>, cuts: seq<nat>, n: nat)
    requires CutInto(units, batches, cuts) && n <= |batches|
    ensures CutInto(units, batches[..n], cuts[..n + 1])
  {
    if n < |batches| {
      assert CutAt(units, batches[n], cuts, n);
    }
    forall i | 0 <= i < n ensures CutAt(units, batches[..n][i], cuts[..n + 1], i) {
      assert CutAt(units, batches[i], cuts, i);
    }
  }

  /** Batches in order hold exactly the units in order: nothing is lost, repeated or moved. */
  lemma {:induction false} BatchesConserve(units: seq<Unit>, batches: seq<seq<Task>>, cuts: seq<nat>)
    requires CutInto(units, batches, cuts)
    ensures Flatten(batches) == Flatten(units[..cuts[|batches|]])
  {
    if batches == [] {
      assert units[..0] == [];
    } else {
      var n := |batches| - 1;
      assert CutAt(units, batches[n], cuts, n);
      CutPrefix(units, batches, cuts, n);
      BatchesConserve(units, batches[..n], cuts[..n + 1]);
      assert units[..cuts[n + 1]] == units[..cuts[n]] + units[cuts[n]..cuts[n + 1]];
      FlattenAppend(units[..cuts[n]], units[cuts[n]..cuts[n + 1]]);
    }
  }

  /** From tasks to batches: the batches hold each task exactly as often as it was given. */
  lemma BatchedTasksArePermuted(tasks: seq<Task>, units: seq<Unit>, batches: seq<seq<Task>>, cuts: seq<nat>)
    requires Grouped(units, tasks) && CutInto(units, batches, cuts) && cuts[|batches|] == |units|
    ensures Flatten(batches) == Flatten(units) && multiset(Flatten(batches)) == multiset(tasks)
  {
    BatchesConserve(units, batches, cuts);
    assert units[..|units|] == units;
  }

  /** A unit lies whole in one batch. */
  lemma {:induction false} UnitInOneBatch(units: seq<Unit>, batches: seq<seq<Task>>, cuts: seq<nat>, k: nat)
    returns (i: nat)
    requires CutInto(units, batches, cuts) && k < cuts[|batches|]
    ensures i < |batches| && cuts[i] <= k < cuts[i + 1] <= |units|
    ensures batches[i] == Flatten(units[cuts[i]..k]) + units[k] + Flatten(units[k + 1..cuts[i + 1]])
  {
    i := 0;
    while k >= cuts[i + 1]
      invariant i < |batches| && cuts[i] <= k
      decreases |batches| - i
    {
      i := i + 1;
    }
    assert CutAt(units, batches[i], cuts, i);
    var stretch := units[cuts[i]..cuts[i + 1]];
    assert stretch == units[cuts[i]..k + 1] + units[k + 1..cuts[i + 1]];
    FlattenAppend(units[cuts[i]..k + 1], units[k + 1..cuts[i + 1]]);
    OneMoreUnit(units, cuts[i], k);
  }
}
