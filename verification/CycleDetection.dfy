/**
 The active set detects cycles and nothing else. On an acyclic graph, however much it shares,
 the run gives the bytes of the tree it unfolds to; once a cycle is reachable no run succeeds.
 */
module CycleDetection {
  import opened Wrappers
  import opened Scalars
  import opened Identity
  import opened IdentityExactness
  import opened ObjectGraph

  /** The (unique) tree that a reference unfolds to, if there is one: a relation, not a run. */
  ghost predicate Denotes(heap: Heap, r: Ref, v: Value)
    decreases v, r
  {
    match r
    case Atom(a) => v == a
    case EnumMember(name, inner) => v.Enum? && v.typeName == name && Denotes(heap, inner, v.inner)
    case Ptr(id) =>
      id in heap &&
      match heap[id]
      case ListCell(items) => v.List? && DenotesAll(heap, items, v.items)
      case TupleCell(items) => v.Tuple? && DenotesAll(heap, items, v.items)
      case SetCell(items) => v.Set? && DenotesAll(heap, items, v.items)
      case FrozenSetCell(items) => v.FrozenSet? && DenotesAll(heap, items, v.items)
      case MapCell(ps) =>
        v.Map? && |v.entries| == |ps| &&
        forall i :: 0 <= i < |ps| ==>
          Denotes(heap, ps[i].key, v.entries[i].key) && Denotes(heap, ps[i].item, v.entries[i].item)
      case ObjectCell(dump) => v.Object? && Denotes(heap, dump, v.dump)
  }

  ghost predicate DenotesAll(heap: Heap, rs: seq<Ref>, vs: seq<Value>)
    decreases vs, 0
  {
    |rs| == |vs| && forall i :: 0 <= i < |rs| ==> Denotes(heap, rs[i], vs[i])
  }

  // Cycles, in terms of paths

  ghost predicate Path(heap: Heap, p: seq<Id>) {
    && p != []
    && (forall i :: 0 <= i < |p| ==> p[i] in heap)
    && forall i :: 0 <= i < |p| - 1 ==> p[i + 1] in CellTargets(heap[p[i]])
  }

  ghost predicate CycleReachable(heap: Heap, r: Ref) {
    exists p: seq<Id>, i: nat, j: nat ::
      Path(heap, p) && p[0] in Targets(r) && i < j < |p| && p[i] == p[j]
  }

  ghost predicate Reaches(heap: Heap, r: Ref, id: Id) {
    exists p: seq<Id> :: Path(heap, p) && p[0] in Targets(r) && p[|p| - 1] == id
  }

  lemma {:induction false} MemberTargets(rs: seq<Ref>, i: nat)
    requires i < |rs|
    ensures Targets(rs[i]) <= AllTargets(rs)
  {
    if i > 0 {
      MemberTargets(rs[1..], i - 1);
    }
  }

  lemma {:induction false} TargetMember(rs: seq<Ref>, t: Id) returns (i: nat)
    requires t in AllTargets(rs)
    ensures i < |rs| && t in Targets(rs[i])
  {
    if t in Targets(rs[0]) {
      i := 0;
    } else {
      var j := TargetMember(rs[1..], t);
      i := j + 1;
    }
  }

  lemma {:induction false} PairMemberTargets(ps: seq<Pair>, i: nat)
    requires i < |ps|
    ensures Targets(ps[i].key) <= PairTargets(ps) && Targets(ps[i].item) <= PairTargets(ps)
  {
    if i > 0 {
      PairMemberTargets(ps[1..], i - 1);
    }
  }

  lemma {:induction false} TargetPairMember(ps: seq<Pair>, t: Id) returns (i: nat)
    requires t in PairTargets(ps)
    ensures i < |ps| && (t in Targets(ps[i].key) || t in Targets(ps[i].item))
  {
    if t in Targets(ps[0].key) + Targets(ps[0].item) {
      i := 0;
    } else {
      var j := TargetPairMember(ps[1..], t);
      i := j + 1;
    }
  }

  lemma {:induction false} DenotesUnique(heap: Heap, r: Ref, v: Value, w: Value)
    requires Denotes(heap, r, v) && Denotes(heap, r, w)
    ensures v == w
    decreases v, r
  {
    match r
    case Atom(_) =>
    case EnumMember(_, inner) => DenotesUnique(heap, inner, v.inner, w.inner);
    case Ptr(id) =>
      match heap[id]
      case MapCell(ps) =>
        forall i | 0 <= i < |ps| ensures v.entries[i] == w.entries[i] {
          DenotesUnique(heap, ps[i].key, v.entries[i].key, w.entries[i].key);
          DenotesUnique(heap, ps[i].item, v.entries[i].item, w.entries[i].item);
        }
        assert v.entries == w.entries;
      case ObjectCell(dump) => DenotesUnique(heap, dump, v.dump, w.dump);
      case _ =>
        var rs := heap[id].items;
        forall i | 0 <= i < |rs| ensures v.items[i] == w.items[i] {
          DenotesUnique(heap, rs[i], v.items[i], w.items[i]);
        }
        assert v.items == w.items;
  }

  // A cycle has no unfolding

  lemma {:induction false} TargetWithin(heap: Heap, r: Ref, v: Value, t: Id) returns (w: Value)
    requires Denotes(heap, r, v) && t in Targets(r)
    ensures Denotes(heap, Ptr(t), w) && (w == v || w < v)
    decreases r
  {
    match r
    case EnumMember(_, inner) => w := TargetWithin(heap, inner, v.inner, t);
    case Ptr(_) => w := v;
  }

  lemma CellTargetBelow(heap: Heap, id: Id, v: Value, t: Id) returns (w: Value)
    requires Denotes(heap, Ptr(id), v) && t in CellTargets(heap[id])
    ensures Denotes(heap, Ptr(t), w) && w < v
  {
    match heap[id]
    case MapCell(ps) =>
      var i := TargetPairMember(ps, t);
      if t in Targets(ps[i].key) {
        w := TargetWithin(heap, ps[i].key, v.entries[i].key, t);
      } else {
        w := TargetWithin(heap, ps[i].item, v.entries[i].item, t);
      }
    case ObjectCell(dump) => w := TargetWithin(heap, dump, v.dump, t);
    case _ =>
      var i := TargetMember(heap[id].items, t);
      w := TargetWithin(heap, heap[id].items[i], v.items[i], t);
  }

  lemma {:induction false} PathDescends(heap: Heap, p: seq<Id>, i: nat, v: Value, j: nat) returns (w: Value)
    requires Path(heap, p) && i <= j < |p| && Denotes(heap, Ptr(p[i]), v)
    ensures Denotes(heap, Ptr(p[j]), w) && (if i == j then w == v else w < v)
    decreases j - i
  {
    if i == j {
      w := v;
    } else {
      var x := CellTargetBelow(heap, p[i], v, p[i + 1]);
      w := PathDescends(heap, p, i + 1, x, j);
    }
  }

  lemma UnfoldingMeansAcyclic(heap: Heap, r: Ref, v: Value)
    requires Denotes(heap, r, v)
    ensures !CycleReachable(heap, r)
  {
    if CycleReachable(heap, r) {
      var p: seq<Id>, i: nat, j: nat :|
        Path(heap, p) && p[0] in Targets(r) && i < j < |p| && p[i] == p[j];
      var u := TargetWithin(heap, r, v, p[0]);
      var x := PathDescends(heap, p, 0, u, i);
      var y := PathDescends(heap, p, i, x, j);
      DenotesUnique(heap, Ptr(p[i]), x, y);
      assert false;
    }
  }

  // A tree's worth of graph encodes as the tree

  /** No object being encoded lies at or below `v`: whatever such an object unfolds to is strictly larger. */
  ghost predicate Above(heap: Heap, active: set<Id>, v: Value) {
    forall id, w :: id in active && Denotes(heap, Ptr(id), w) ==> v < w
  }

  lemma AboveChild(heap: Heap, active: set<Id>, v: Value, child: Value)
    requires Above(heap, active, v) && child < v
    ensures Above(heap, active, child)
  {
  }

  lemma {:induction false} RunsLikeItsTree(heap: Heap, r: Ref, v: Value, active: set<Id>)
    requires Closed(heap) && Targets(r) <= heap.Keys
    requires Denotes(heap, r, v) && Above(heap, active, v)
    ensures EncodeRef(heap, r, active) == Encode(v)
    decreases v, 1, r
  {
    match r
    case Atom(_) =>
    case EnumMember(_, inner) =>
      AboveChild(heap, active, v, v.inner);
      RunsLikeItsTree(heap, inner, v.inner, active);
    case Ptr(id) =>
      assert id !in active;
      CellRunsLikeItsTree(heap, id, v, active);
  }

  lemma AboveInside(heap: Heap, active: set<Id>, id: Id, v: Value, child: Value)
    requires Denotes(heap, Ptr(id), v) && Above(heap, active, v) && child < v
    ensures Above(heap, active + {id}, child)
  {
    forall w | Denotes(heap, Ptr(id), w) ensures child < w {
      DenotesUnique(heap, Ptr(id), v, w);
    }
  }

  lemma {:induction false} CellRunsLikeItsTree(heap: Heap, id: Id, v: Value, active: set<Id>)
    requires Closed(heap) && id in heap
    requires Denotes(heap, Ptr(id), v) && Above(heap, active, v)
    ensures EncodeCell(heap, heap[id], active + {id}) == Encode(v)
    decreases v, 0, 1
  {
    match heap[id]
    case MapCell(_) => PairsRunLikeTheirTrees(heap, id, v, active);
    case ObjectCell(dump) =>
      AboveInside(heap, active, id, v, v.dump);
      RunsLikeItsTree(heap, dump, v.dump, active + {id});
    case _ =>
      MembersRunLikeTheirTrees(heap, id, heap[id].items, v, v.items, active);
      CellFromMembers(heap, heap[id], v, active + {id});
  }

  lemma CellFromMembers(heap: Heap, cell: Cell, v: Value, active: set<Id>)
    requires Closed(heap) && CellTargets(cell) <= heap.Keys && !cell.MapCell? && !cell.ObjectCell?
    requires match cell
      case ListCell(_) => v.List?
      case TupleCell(_) => v.Tuple?
      case SetCell(_) => v.Set?
      case _ => v.FrozenSet?
    requires |cell.items| == |v.items| && EncodeRefs(heap, cell.items, active) == EncodeAll(v.items)
    ensures EncodeCell(heap, cell, active) == Encode(v)
  {
  }

  lemma {:induction false} PairsRunLikeTheirTrees(heap: Heap, id: Id, v: Value, active: set<Id>)
    requires Closed(heap) && id in heap && heap[id].MapCell?
    requires Denotes(heap, Ptr(id), v) && Above(heap, active, v)
    ensures EncodePairs(heap, heap[id].entries, active + {id}) == EncodeEntries(v.entries)
    decreases v, 0, 0
  {
    var ps, active' := heap[id].entries, active + {id};
    forall i | 0 <= i < |ps|
      ensures Targets(ps[i].key) <= heap.Keys && Targets(ps[i].item) <= heap.Keys
      ensures EncodeRef(heap, ps[i].key, active') == Encode(v.entries[i].key)
      ensures EncodeRef(heap, ps[i].item, active') == Encode(v.entries[i].item)
    {
      PairMemberTargets(ps, i);
      AboveInside(heap, active, id, v, v.entries[i].key);
      AboveInside(heap, active, id, v, v.entries[i].item);
      RunsLikeItsTree(heap, ps[i].key, v.entries[i].key, active');
      RunsLikeItsTree(heap, ps[i].item, v.entries[i].item, active');
    }
    PairsAlike(heap, ps, v.entries, active');
  }

  lemma {:induction false} MembersRunLikeTheirTrees(
      heap: Heap, id: Id, rs: seq<Ref>, v: Value, vs: seq<Value>, active: set<Id>)
    requires Closed(heap) && id in heap && AllTargets(rs) <= heap.Keys
    requires Denotes(heap, Ptr(id), v) && Above(heap, active, v)
    requires DenotesAll(heap, rs, vs) && forall i :: 0 <= i < |vs| ==> vs[i] < v
    ensures EncodeRefs(heap, rs, active + {id}) == EncodeAll(vs)
    decreases v, 0, 0
  {
    var active' := active + {id};
    forall i | 0 <= i < |rs|
      ensures Targets(rs[i]) <= heap.Keys && EncodeRef(heap, rs[i], active') == Encode(vs[i])
    {
      MemberTargets(rs, i);
      AboveInside(heap, active, id, v, vs[i]);
      RunsLikeItsTree(heap, rs[i], vs[i], active');
    }
    RefsAlike(heap, rs, vs, active');
  }

  lemma {:induction false} RefsAlike(heap: Heap, rs: seq<Ref>, vs: seq<Value>, active: set<Id>)
    requires Closed(heap) && AllTargets(rs) <= heap.Keys && |rs| == |vs|
    requires forall i :: 0 <= i < |rs| ==>
      Targets(rs[i]) <= heap.Keys && EncodeRef(heap, rs[i], active) == Encode(vs[i])
    ensures EncodeRefs(heap, rs, active) == EncodeAll(vs)
  {
    if rs != [] {
      assert forall i :: 0 <= i < |rs| - 1 ==> rs[1..][i] == rs[i + 1] && vs[1..][i] == vs[i + 1];
      RefsAlike(heap, rs[1..], vs[1..], active);
    }
  }

  lemma {:induction false} PairsAlike(heap: Heap, ps: seq<Pair>, es: seq<Entry>, active: set<Id>)
    requires Closed(heap) && PairTargets(ps) <= heap.Keys && |ps| == |es|
    requires forall i :: 0 <= i < |ps| ==>
      && Targets(ps[i].key) <= heap.Keys && Targets(ps[i].item) <= heap.Keys
      && EncodeRef(heap, ps[i].key, active) == Encode(es[i].key)
      && EncodeRef(heap, ps[i].item, active) == Encode(es[i].item)
    ensures EncodePairs(heap, ps, active) == EncodeEntries(es)
  {
    if ps != [] {
      assert forall i :: 0 <= i < |ps| - 1 ==> ps[1..][i] == ps[i + 1] && es[1..][i] == es[i + 1];
      PairsAlike(heap, ps[1..], es[1..], active);
      assert EncodeRef(heap, ps[0].key, active) == Encode(es[0].key);
    }
  }

  // Success means there was a tree

  lemma {:induction false} SuccessMeansTree(heap: Heap, r: Ref, active: set<Id>) returns (v: Value)
    requires Closed(heap) && Targets(r) <= heap.Keys
    requires EncodeRef(heap, r, active).Ok?
    ensures Denotes(heap, r, v)
    decreases heap.Keys - active, 0, r
  {
    match r
    case Atom(a) => v := a;
    case EnumMember(name, inner) =>
      var x := SuccessMeansTree(heap, inner, active);
      v := Enum(name, x);
    case Ptr(id) =>
      var active' := active + {id};
      match heap[id]
      case ListCell(rs) =>
        var vs := SuccessesMeanTrees(heap, rs, active');
        v := List(vs);
      case TupleCell(rs) =>
        var vs := SuccessesMeanTrees(heap, rs, active');
        v := Tuple(vs);
      case SetCell(rs) =>
        var vs := SuccessesMeanTrees(heap, rs, active');
        v := Set(vs);
      case FrozenSetCell(rs) =>
        var vs := SuccessesMeanTrees(heap, rs, active');
        v := FrozenSet(vs);
      case MapCell(ps) =>
        var es := PairSuccessesMeanTrees(heap, ps, active');
        v := Map(es);
      case ObjectCell(dump) =>
        var x := SuccessMeansTree(heap, dump, active');
        v := Object(x);
  }

  lemma {:induction false} SuccessesMeanTrees(heap: Heap, rs: seq<Ref>, active: set<Id>) returns (vs: seq<Value>)
    requires Closed(heap) && AllTargets(rs) <= heap.Keys
    requires EncodeRefs(heap, rs, active).Ok?
    ensures DenotesAll(heap, rs, vs)
    decreases heap.Keys - active, 1, |rs|
  {
    if rs == [] {
      vs := [];
    } else {
      var first := SuccessMeansTree(heap, rs[0], active);
      var rest := SuccessesMeanTrees(heap, rs[1..], active);
      vs := [first] + rest;
      forall i | 0 <= i < |rs| ensures Denotes(heap, rs[i], vs[i]) {
        if i > 0 {
          assert Denotes(heap, rs[1..][i - 1], rest[i - 1]);
        }
      }
    }
  }

  lemma {:induction false} PairSuccessesMeanTrees(heap: Heap, ps: seq<Pair>, active: set<Id>)
    returns (es: seq<Entry>)
    requires Closed(heap) && PairTargets(ps) <= heap.Keys
    requires EncodePairs(heap, ps, active).Ok?
    ensures |es| == |ps|
    ensures forall i :: 0 <= i < |ps| ==>
      Denotes(heap, ps[i].key, es[i].key) && Denotes(heap, ps[i].item, es[i].item)
    decreases heap.Keys - active, 1, |ps|
  {
    if ps == [] {
      es := [];
    } else {
      var key := SuccessMeansTree(heap, ps[0].key, active);
      var item := SuccessMeansTree(heap, ps[0].item, active);
      var rest := PairSuccessesMeanTrees(heap, ps[1..], active);
      es := [Entry(key, item)] + rest;
    }
  }

  // Without a cycle there is a tree

  lemma {:induction false} ExtendPath(heap: Heap, id: Id, p: seq<Id>)
    requires id in heap && Path(heap, p) && p[0] in CellTargets(heap[id])
    ensures Path(heap, [id] + p)
  {
    var q := [id] + p;
    forall i | 0 <= i < |q| - 1 ensures q[i + 1] in CellTargets(heap[q[i]]) {
      if i > 0 {
        assert p[i] in CellTargets(heap[p[i - 1]]);
      }
    }
  }

  /** Clear of cycles and of the objects being encoded. */
  ghost predicate Clear(heap: Heap, r: Ref, active: set<Id>) {
    !CycleReachable(heap, r) && forall id | id in active :: !Reaches(heap, r, id)
  }

  lemma ClearChild(heap: Heap, id: Id, r: Ref, active: set<Id>)
    requires Closed(heap) && id in heap && Clear(heap, Ptr(id), active) && Targets(r) <= CellTargets(heap[id])
    ensures Clear(heap, r, active + {id})
  {
    if CycleReachable(heap, r) {
      var p: seq<Id>, i: nat, j: nat :|
        Path(heap, p) && p[0] in Targets(r) && i < j < |p| && p[i] == p[j];
      ExtendPath(heap, id, p);
      var q := [id] + p;
      assert q[i + 1] == q[j + 1];
      assert CycleReachable(heap, Ptr(id));
    }
    forall x | x in active + {id} ensures !Reaches(heap, r, x) {
      if Reaches(heap, r, x) {
        var p: seq<Id> :| Path(heap, p) && p[0] in Targets(r) && p[|p| - 1] == x;
        ExtendPath(heap, id, p);
        var q := [id] + p;
        assert q[|q| - 1] == x;
        if x == id {
          assert q[0] == q[|q| - 1];
          assert CycleReachable(heap, Ptr(id));
        } else {
          assert Reaches(heap, Ptr(id), x);
        }
      }
    }
  }

  lemma {:induction false} AcyclicMeansTree(heap: Heap, r: Ref, active: set<Id>) returns (v: Value)
    requires Closed(heap) && Targets(r) <= heap.Keys && Clear(heap, r, active)
    ensures Denotes(heap, r, v)
    decreases heap.Keys - active, 0, r
  {
    match r
    case Atom(a) => v := a;
    case EnumMember(name, inner) =>
      assert Targets(inner) == Targets(r);
      forall id | id in active ensures !Reaches(heap, inner, id) {
        assert !Reaches(heap, r, id);
      }
      var x := AcyclicMeansTree(heap, inner, active);
      v := Enum(name, x);
    case Ptr(id) =>
      if id in active {
        assert Path(heap, [id]);
        assert Reaches(heap, r, id);
        assert false;
      }
      var active' := active + {id};
      match heap[id]
      case ListCell(rs) =>
        var vs := AcyclicMembersMeanTrees(heap, id, rs, active);
        v := List(vs);
      case TupleCell(rs) =>
        var vs := AcyclicMembersMeanTrees(heap, id, rs, active);
        v := Tuple(vs);
      case SetCell(rs) =>
        var vs := AcyclicMembersMeanTrees(heap, id, rs, active);
        v := Set(vs);
      case FrozenSetCell(rs) =>
        var vs := AcyclicMembersMeanTrees(heap, id, rs, active);
        v := FrozenSet(vs);
      case MapCell(ps) =>
        var es := AcyclicPairsMeanTrees(heap, id, ps, active);
        v := Map(es);
      case ObjectCell(dump) =>
        ClearChild(heap, id, dump, active);
        var x := AcyclicMeansTree(heap, dump, active');
        v := Object(x);
  }

  lemma {:induction false} AcyclicMembersMeanTrees(heap: Heap, id: Id, rs: seq<Ref>, active: set<Id>)
    returns (vs: seq<Value>)
    requires Closed(heap) && id in heap && id !in active && Clear(heap, Ptr(id), active)
    requires AllTargets(rs) <= CellTargets(heap[id])
    ensures DenotesAll(heap, rs, vs)
    decreases heap.Keys - (active + {id}), 1, |rs|
  {
    if rs == [] {
      vs := [];
    } else {
      ClearChild(heap, id, rs[0], active);
      var first := AcyclicMeansTree(heap, rs[0], active + {id});
      var rest := AcyclicMembersMeanTrees(heap, id, rs[1..], active);
      vs := [first] + rest;
      forall i | 0 <= i < |rs| ensures Denotes(heap, rs[i], vs[i]) {
        if i > 0 {
          assert Denotes(heap, rs[1..][i - 1], rest[i - 1]);
        }
      }
    }
  }

  lemma {:induction false} AcyclicPairsMeanTrees(heap: Heap, id: Id, ps: seq<Pair>, active: set<Id>)
    returns (es: seq<Entry>)
    requires Closed(heap) && id in heap && id !in active && Clear(heap, Ptr(id), active)
    requires PairTargets(ps) <= CellTargets(heap[id])
    ensures |es| == |ps|
    ensures forall i :: 0 <= i < |ps| ==>
      Denotes(heap, ps[i].key, es[i].key) && Denotes(heap, ps[i].item, es[i].item)
    decreases heap.Keys - (active + {id}), 1, |ps|
  {
    if ps == [] {
      es := [];
    } else {
      ClearChild(heap, id, ps[0].key, active);
      ClearChild(heap, id, ps[0].item, active);
      var key := AcyclicMeansTree(heap, ps[0].key, active + {id});
      var item := AcyclicMeansTree(heap, ps[0].item, active + {id});
      var rest := AcyclicPairsMeanTrees(heap, id, ps[1..], active);
      es := [Entry(key, item)] + rest;
    }
  }

  // The verdict

  lemma {:induction false} TreesNeverReportCycles(v: Value)
    ensures Encode(v) != Err(CyclicValue)
    decreases v, 1
  {
    if v.Object? {
      TreesNeverReportCycles(v.dump);
    } else {
      match v
      case Enum(_, inner) => TreesNeverReportCycles(inner);
      case Map(es) => EntriesNeverReportCycles(es);
      case List(vs) => MembersNeverReportCycles(vs);
      case Tuple(vs) => MembersNeverReportCycles(vs);
      case Set(vs) => MembersNeverReportCycles(vs);
      case FrozenSet(vs) => MembersNeverReportCycles(vs);
      case _ =>
    }
  }

  lemma {:induction false} MembersNeverReportCycles(vs: seq<Value>)
    ensures EncodeAll(vs) != Err(CyclicValue)
    decreases vs, 0
  {
    if vs != [] {
      TreesNeverReportCycles(vs[0]);
      MembersNeverReportCycles(vs[1..]);
    }
  }

  lemma {:induction false} EntriesNeverReportCycles(es: seq<Entry>)
    ensures EncodeEntries(es) != Err(CyclicValue)
    decreases es, 0
  {
    if es != [] {
      EntryNeverReportsCycles(es[0]);
      EntriesNeverReportCycles(es[1..]);
    }
  }

  lemma {:induction false} EntryNeverReportsCycles(e: Entry)
    ensures EncodeEntry(e) != Err(CyclicValue)
    decreases e, 0
  {
    TreesNeverReportCycles(e.key);
    TreesNeverReportCycles(e.item);
  }

  /**
   A run from an empty active set: with a reachable cycle it fails; without one it behaves as the
   pure encoder does on the unfolded tree, so it never reports a cycle and sharing costs nothing.
   */
  lemma CycleVerdict(heap: Heap, r: Ref)
    requires Closed(heap) && Targets(r) <= heap.Keys
    ensures CycleReachable(heap, r) ==> EncodeRef(heap, r, {}).Err?
    ensures EncodeRef(heap, r, {}) == Err(CyclicValue) ==> CycleReachable(heap, r)
    ensures !CycleReachable(heap, r) ==>
      exists v :: Denotes(heap, r, v) && EncodeRef(heap, r, {}) == Encode(v)
  {
    if EncodeRef(heap, r, {}).Ok? {
      var v := SuccessMeansTree(heap, r, {});
      UnfoldingMeansAcyclic(heap, r, v);
    }
    if !CycleReachable(heap, r) {
      var v := AcyclicMeansTree(heap, r, {});
      RunsLikeItsTree(heap, r, v, {});
      TreesNeverReportCycles(v);
    }
  }
}
