/**
 Which failure a run over a cyclic graph reports. Encoding is depth first and stops at the first
 failure, so the cyclic error is the one reported exactly when a walk in encoding order closes a
 cycle before it meets anything that does not encode.
 */
module CycleErrors {
  import opened Wrappers
  import opened Scalars
  import opened Identity
  import opened IdentityExactness
  import opened ObjectGraph
  import opened CycleDetection

  // Walks in encoding order

  /** The reference unfolds to a tree, and the tree encodes. */
  ghost predicate Encodes(heap: Heap, r: Ref) {
    exists v :: Denotes(heap, r, v) && Encode(v).Ok?
  }

  ghost predicate AllEncode(heap: Heap, rs: seq<Ref>, n: nat) {
    n <= |rs| && forall j :: 0 <= j < n ==> Encodes(heap, rs[j])
  }

  ghost predicate AllPairsEncode(heap: Heap, ps: seq<Pair>, n: nat) {
    n <= |ps| && forall j :: 0 <= j < n ==> Encodes(heap, ps[j].key) && Encodes(heap, ps[j].item)
  }

  /** The reference is object `t`, or enum members around it whose type names encode. */
  predicate Holds(r: Ref, t: Id) {
    match r
    case Atom(_) => false
    case EnumMember(name, inner) => TextBytes(name).Ok? && Frame(CLASS_TAG, TextBytes(name).value).Ok? && Holds(inner, t)
    case Ptr(id) => id == t
  }

  /** One of the references holds `t`, and everything before it encodes. */
  ghost predicate MeetsIn(heap: Heap, rs: seq<Ref>, t: Id) {
    exists i :: 0 <= i < |rs| && Holds(rs[i], t) && AllEncode(heap, rs, i)
  }

  ghost predicate MeetsInPairs(heap: Heap, ps: seq<Pair>, t: Id) {
    exists i :: 0 <= i < |ps| && AllPairsEncode(heap, ps, i)
      && (Holds(ps[i].key, t) || (Encodes(heap, ps[i].key) && Holds(ps[i].item, t)))
  }

  /** Encoding the object comes to `t` without having failed: lists and tuples write their count first. */
  ghost predicate Meets(heap: Heap, id: Id, t: Id) {
    id in heap &&
    match heap[id]
    case ListCell(items) => |items| < LENGTH_LIMIT && MeetsIn(heap, items, t)
    case TupleCell(items) => |items| < LENGTH_LIMIT && MeetsIn(heap, items, t)
    case SetCell(items) => MeetsIn(heap, items, t)
    case FrozenSetCell(items) => MeetsIn(heap, items, t)
    case MapCell(ps) => MeetsInPairs(heap, ps, t)
    case ObjectCell(dump) => Holds(dump, t)
  }

  ghost predicate Walk(heap: Heap, r: Ref, p: seq<Id>) {
    && p != [] && Holds(r, p[0])
    && forall i :: 0 <= i < |p| - 1 ==> Meets(heap, p[i], p[i + 1])
  }

  /** A walk in encoding order comes back to an object it has entered. */
  ghost predicate ClosesCycle(heap: Heap, r: Ref) {
    exists p: seq<Id> :: Walk(heap, r, p) && p[|p| - 1] in p[..|p| - 1]
  }

  // Walks are paths

  lemma {:induction false} HeldIsTarget(r: Ref, t: Id)
    requires Holds(r, t)
    ensures t in Targets(r)
  {
    match r
    case EnumMember(_, inner) => HeldIsTarget(inner, t);
    case Ptr(_) =>
  }

  lemma MetIsTarget(heap: Heap, id: Id, t: Id)
    requires Meets(heap, id, t)
    ensures t in CellTargets(heap[id])
  {
    match heap[id]
    case MapCell(ps) =>
      var i :| 0 <= i < |ps| && AllPairsEncode(heap, ps, i)
        && (Holds(ps[i].key, t) || (Encodes(heap, ps[i].key) && Holds(ps[i].item, t)));
      if Holds(ps[i].key, t) {
        HeldIsTarget(ps[i].key, t);
      } else {
        HeldIsTarget(ps[i].item, t);
      }
      PairMemberTargets(ps, i);
    case ObjectCell(dump) => HeldIsTarget(dump, t);
    case _ =>
      var items := heap[id].items;
      var i :| 0 <= i < |items| && Holds(items[i], t) && AllEncode(heap, items, i);
      HeldIsTarget(items[i], t);
      MemberTargets(items, i);
  }

  lemma WalkIsPath(heap: Heap, r: Ref, p: seq<Id>)
    requires Closed(heap) && Targets(r) <= heap.Keys && Walk(heap, r, p)
    ensures Path(heap, p) && p[0] in Targets(r)
  {
    HeldIsTarget(r, p[0]);
    forall i | 0 <= i < |p| - 1 ensures p[i] in heap && p[i + 1] in CellTargets(heap[p[i]]) {
      MetIsTarget(heap, p[i], p[i + 1]);
    }
    forall i | 0 <= i < |p| ensures p[i] in heap {
      if i > 0 {
        assert Meets(heap, p[i - 1], p[i - 1 + 1]);
        assert p[i - 1 + 1] in CellTargets(heap[p[i - 1]]);
      }
    }
  }

  // Objects on a closed walk unfold to nothing

  ghost predicate Treeless(heap: Heap, ids: set<Id>) {
    forall id, v :: id in ids ==> !Denotes(heap, Ptr(id), v)
  }

  lemma ClosedPathHasNoTree(heap: Heap, p: seq<Id>, i: nat, v: Value)
    requires Path(heap, p) && p[|p| - 1] in p[..|p| - 1] && i < |p|
    ensures !Denotes(heap, Ptr(p[i]), v)
  {
    var last, node := |p| - 1, Ptr(p[i]);
    if Denotes(heap, node, v) {
      var k :| 0 <= k < last && p[k] == p[last];
      var x := PathDescends(heap, p, i, v, last);
      if k <= i {
        var y := PathDescends(heap, p, k, x, i);
        DenotesUnique(heap, node, v, y);
        assert false;
      } else {
        var y := PathDescends(heap, p, k, x, last);
        DenotesUnique(heap, Ptr(p[last]), x, y);
        assert false;
      }
    }
  }

  /** Beneath objects that unfold to nothing, what encodes encodes as its tree. */
  lemma EncodesInside(heap: Heap, r: Ref, active: set<Id>)
    requires Closed(heap) && Targets(r) <= heap.Keys && Treeless(heap, active)
    ensures EncodeRef(heap, r, active).Ok? <==> Encodes(heap, r)
    ensures EncodeRef(heap, r, active) == Err(CyclicValue) ==> forall v :: !Denotes(heap, r, v)
  {
    if EncodeRef(heap, r, active).Ok? {
      var v := SuccessMeansTree(heap, r, active);
      RunsLikeItsTree(heap, r, v, active);
    }
    if Encodes(heap, r) {
      var v :| Denotes(heap, r, v) && Encode(v).Ok?;
      RunsLikeItsTree(heap, r, v, active);
    }
    forall v | Denotes(heap, r, v) ensures EncodeRef(heap, r, active) != Err(CyclicValue) {
      RunsLikeItsTree(heap, r, v, active);
      TreesNeverReportCycles(v);
    }
  }

  // From the walk to the error

  lemma {:induction false} HeldErrorSurfaces(heap: Heap, r: Ref, t: Id, active: set<Id>)
    requires Closed(heap) && Targets(r) <= heap.Keys && t in heap && Holds(r, t)
    requires EncodeRef(heap, Ptr(t), active) == Err(CyclicValue)
    ensures EncodeRef(heap, r, active) == Err(CyclicValue)
  {
    match r
    case EnumMember(_, inner) => HeldErrorSurfaces(heap, inner, t, active);
    case Ptr(_) =>
  }

  lemma {:induction false} MemberErrorSurfaces(heap: Heap, rs: seq<Ref>, i: nat, active: set<Id>)
    requires Closed(heap) && AllTargets(rs) <= heap.Keys && i < |rs| && Treeless(heap, active)
    requires AllEncode(heap, rs, i)
    requires Targets(rs[i]) <= heap.Keys && EncodeRef(heap, rs[i], active) == Err(CyclicValue)
    ensures EncodeRefs(heap, rs, active) == Err(CyclicValue)
  {
    if i > 0 {
      assert Encodes(heap, rs[0]);
      EncodesInside(heap, rs[0], active);
      assert AllEncode(heap, rs[1..], i - 1) by {
        forall j | 0 <= j < i - 1 ensures Encodes(heap, rs[1..][j]) {
          assert Encodes(heap, rs[j + 1]);
        }
      }
      MemberErrorSurfaces(heap, rs[1..], i - 1, active);
    }
  }

  lemma {:induction false} PairErrorSurfaces(heap: Heap, ps: seq<Pair>, i: nat, active: set<Id>)
    requires Closed(heap) && PairTargets(ps) <= heap.Keys && i < |ps| && Treeless(heap, active)
    requires AllPairsEncode(heap, ps, i)
    requires Targets(ps[i].key) <= heap.Keys && Targets(ps[i].item) <= heap.Keys
    requires EncodeRef(heap, ps[i].key, active) == Err(CyclicValue)
      || (Encodes(heap, ps[i].key) && EncodeRef(heap, ps[i].item, active) == Err(CyclicValue))
    ensures EncodePairs(heap, ps, active) == Err(CyclicValue)
  {
    if i == 0 {
      EncodesInside(heap, ps[0].key, active);
    } else {
      assert Encodes(heap, ps[0].key) && Encodes(heap, ps[0].item);
      EncodesInside(heap, ps[0].key, active);
      EncodesInside(heap, ps[0].item, active);
      assert AllPairsEncode(heap, ps[1..], i - 1) by {
        forall j | 0 <= j < i - 1 ensures Encodes(heap, ps[1..][j].key) && Encodes(heap, ps[1..][j].item) {
          assert Encodes(heap, ps[j + 1].key) && Encodes(heap, ps[j + 1].item);
        }
      }
      PairErrorSurfaces(heap, ps[1..], i - 1, active);
    }
  }

  lemma MetErrorSurfaces(heap: Heap, id: Id, t: Id, active: set<Id>)
    requires Closed(heap) && id in heap && t in heap && Treeless(heap, active) && Meets(heap, id, t)
    requires EncodeRef(heap, Ptr(t), active) == Err(CyclicValue)
    ensures EncodeCell(heap, heap[id], active) == Err(CyclicValue)
  {
    match heap[id]
    case MapCell(ps) =>
      var i :| 0 <= i < |ps| && AllPairsEncode(heap, ps, i)
        && (Holds(ps[i].key, t) || (Encodes(heap, ps[i].key) && Holds(ps[i].item, t)));
      PairMemberTargets(ps, i);
      if Holds(ps[i].key, t) {
        HeldErrorSurfaces(heap, ps[i].key, t, active);
      } else {
        HeldErrorSurfaces(heap, ps[i].item, t, active);
      }
      PairErrorSurfaces(heap, ps, i, active);
    case ObjectCell(dump) => HeldErrorSurfaces(heap, dump, t, active);
    case _ =>
      var items := heap[id].items;
      var i :| 0 <= i < |items| && Holds(items[i], t) && AllEncode(heap, items, i);
      MemberTargets(items, i);
      HeldErrorSurfaces(heap, items[i], t, active);
      MemberErrorSurfaces(heap, items, i, active);
  }

  function Ids(p: seq<Id>): set<Id> {
    set id | id in p
  }

  /** Along a walk that closes, the run from any position on reports the cycle. */
  lemma {:induction false} ClosedWalkReports(heap: Heap, r: Ref, p: seq<Id>, i: nat)
    requires Closed(heap) && Targets(r) <= heap.Keys && Walk(heap, r, p)
    requires p[|p| - 1] in p[..|p| - 1] && i < |p|
    requires p[i] in heap
    ensures EncodeRef(heap, Ptr(p[i]), Ids(p[..i])) == Err(CyclicValue)
    decreases |p| - i
  {
    if p[i] !in p[..i] {
      WalkIsPath(heap, r, p);
      assert i < |p| - 1;
      assert Ids(p[..i + 1]) == Ids(p[..i]) + {p[i]} by {
        assert p[..i + 1] == p[..i] + [p[i]];
      }
      assert Meets(heap, p[i], p[i + 1]);
      assert p[i + 1] in heap;
      ClosedWalkReports(heap, r, p, i + 1);
      forall id, v | id in Ids(p[..i + 1]) ensures !Denotes(heap, Ptr(id), v) {
        var k :| 0 <= k < i + 1 && p[k] == id;
        ClosedPathHasNoTree(heap, p, k, v);
      }
      MetErrorSurfaces(heap, p[i], p[i + 1], Ids(p[..i + 1]));
    }
  }

  // From the error to the walk

  lemma {:induction false} FirstHeldError(heap: Heap, r: Ref, active: set<Id>) returns (t: Id)
    requires Closed(heap) && Targets(r) <= heap.Keys && EncodeRef(heap, r, active) == Err(CyclicValue)
    ensures t in heap && Holds(r, t) && EncodeRef(heap, Ptr(t), active) == Err(CyclicValue)
  {
    match r
    case Atom(v) =>
      TreesNeverReportCycles(v);
      assert false;
    case EnumMember(_, inner) => t := FirstHeldError(heap, inner, active);
    case Ptr(id) => t := id;
  }

  lemma {:induction false} FirstMemberError(heap: Heap, rs: seq<Ref>, active: set<Id>) returns (i: nat)
    requires Closed(heap) && AllTargets(rs) <= heap.Keys && Treeless(heap, active)
    requires EncodeRefs(heap, rs, active) == Err(CyclicValue)
    ensures i < |rs| && Targets(rs[i]) <= heap.Keys && EncodeRef(heap, rs[i], active) == Err(CyclicValue)
    ensures AllEncode(heap, rs, i)
  {
    if EncodeRef(heap, rs[0], active).Err? {
      i := 0;
    } else {
      EncodesInside(heap, rs[0], active);
      var k := FirstMemberError(heap, rs[1..], active);
      i := k + 1;
      forall j | 0 <= j < i ensures Encodes(heap, rs[j]) {
        if j > 0 {
          assert Encodes(heap, rs[1..][j - 1]);
        }
      }
    }
  }

  lemma {:induction false} FirstPairError(heap: Heap, ps: seq<Pair>, active: set<Id>) returns (i: nat)
    requires Closed(heap) && PairTargets(ps) <= heap.Keys && Treeless(heap, active)
    requires EncodePairs(heap, ps, active) == Err(CyclicValue)
    ensures i < |ps| && Targets(ps[i].key) <= heap.Keys && Targets(ps[i].item) <= heap.Keys
    ensures AllPairsEncode(heap, ps, i)
    ensures EncodeRef(heap, ps[i].key, active) == Err(CyclicValue)
      || (Encodes(heap, ps[i].key) && EncodeRef(heap, ps[i].item, active) == Err(CyclicValue))
  {
    EncodesInside(heap, ps[0].key, active);
    EncodesInside(heap, ps[0].item, active);
    if EncodeRef(heap, ps[0].key, active).Err? || EncodeRef(heap, ps[0].item, active).Err? {
      i := 0;
    } else {
      var k := FirstPairError(heap, ps[1..], active);
      i := k + 1;
      forall j | 0 <= j < i ensures Encodes(heap, ps[j].key) && Encodes(heap, ps[j].item) {
        if j > 0 {
          assert Encodes(heap, ps[1..][j - 1].key) && Encodes(heap, ps[1..][j - 1].item);
        }
      }
    }
  }

  lemma FirstCellError(heap: Heap, id: Id, active: set<Id>) returns (t: Id)
    requires Closed(heap) && id in heap && Treeless(heap, active)
    requires EncodeCell(heap, heap[id], active) == Err(CyclicValue)
    ensures t in heap && Meets(heap, id, t) && EncodeRef(heap, Ptr(t), active) == Err(CyclicValue)
  {
    match heap[id]
    case MapCell(ps) =>
      var i := FirstPairError(heap, ps, active);
      if EncodeRef(heap, ps[i].key, active) == Err(CyclicValue) {
        t := FirstHeldError(heap, ps[i].key, active);
      } else {
        t := FirstHeldError(heap, ps[i].item, active);
      }
    case ObjectCell(dump) => t := FirstHeldError(heap, dump, active);
    case _ =>
      var items := heap[id].items;
      var i := FirstMemberError(heap, items, active);
      t := FirstHeldError(heap, items[i], active);
  }

  /** From an object whose run reports a cycle, a walk leads back into the active set or into itself. */
  lemma {:induction false} ErrorHasWalk(heap: Heap, r: Ref, p: seq<Id>) returns (q: seq<Id>)
    requires Closed(heap) && Targets(r) <= heap.Keys && Walk(heap, r, p) && p[|p| - 1] in heap
    requires Treeless(heap, Ids(p[..|p| - 1])) && Ids(p[..|p| - 1]) <= heap.Keys
    requires EncodeRef(heap, Ptr(p[|p| - 1]), Ids(p[..|p| - 1])) == Err(CyclicValue)
    ensures Walk(heap, r, q) && q[|q| - 1] in q[..|q| - 1]
    decreases heap.Keys - Ids(p[..|p| - 1])
  {
    var last := |p| - 1;
    var id, active := p[last], Ids(p[..last]);
    if id in active {
      q := p;
    } else {
      EncodesInside(heap, Ptr(id), active);
      assert Treeless(heap, active + {id});
      var t := FirstCellError(heap, id, active + {id});
      q := p + [t];
      assert q[..|q| - 1] == p && p == p[..last] + [id];
      assert Ids(p) == active + {id};
      forall i | 0 <= i < |q| - 1 ensures Meets(heap, q[i], q[i + 1]) {
        if i < last {
          assert Meets(heap, p[i], p[i + 1]);
        }
      }
      q := ErrorHasWalk(heap, r, q);
    }
  }

  /** The cyclic error is raised exactly when encoding closes a cycle before it meets any other failure. */
  lemma CyclicErrorExactly(heap: Heap, r: Ref)
    requires Closed(heap) && Targets(r) <= heap.Keys
    ensures EncodeRef(heap, r, {}) == Err(CyclicValue) <==> ClosesCycle(heap, r)
  {
    if EncodeRef(heap, r, {}) == Err(CyclicValue) {
      var t := FirstHeldError(heap, r, {});
      assert Ids([t][..0]) == {};
      var p := ErrorHasWalk(heap, r, [t]);
    }
    if ClosesCycle(heap, r) {
      var p: seq<Id> :| Walk(heap, r, p) && p[|p| - 1] in p[..|p| - 1];
      WalkIsPath(heap, r, p);
      assert Ids(p[..0]) == {};
      ClosedWalkReports(heap, r, p, 0);
      HeldErrorSurfaces(heap, r, p[0], {});
    }
  }

  /** A cycle that encoding closes is a reachable one; a reachable one may stay unclosed. */
  lemma ClosedCycleIsReachable(heap: Heap, r: Ref)
    requires Closed(heap) && Targets(r) <= heap.Keys && ClosesCycle(heap, r)
    ensures CycleReachable(heap, r)
  {
    var p: seq<Id> :| Walk(heap, r, p) && p[|p| - 1] in p[..|p| - 1];
    WalkIsPath(heap, r, p);
    var k :| 0 <= k < |p| - 1 && p[k] == p[|p| - 1];
  }

  /** A cyclic graph whose cycle is not reported: a list that holds an atom and then itself, whenever
      the atom does not encode. */
  lemma AtomBeforeTheCycle(atom: Value)
    ensures var heap: Heap := map[0 := ListCell([Atom(atom), Ptr(0)])];
      && Closed(heap) && CycleReachable(heap, Ptr(0))
      && (ClosesCycle(heap, Ptr(0)) <==> Encode(atom).Ok?)
      && EncodeRef(heap, Ptr(0), {}) == (if Encode(atom).Ok? then Err(CyclicValue) else Err(Encode(atom).error))
  {
    var items := [Atom(atom), Ptr(0)];
    var heap: Heap := map[0 := ListCell(items)];
    assert items[1..] == [Ptr(0)];
    assert AllTargets([Ptr(0)]) == Targets(Ptr(0)) + AllTargets([]) == {0};
    assert AllTargets(items) == Targets(Atom(atom)) + AllTargets([Ptr(0)]) == {0};
    assert CellTargets(heap[0]) == {0};
    var p: seq<Id> := [0, 0];
    assert Path(heap, p) && p[0] in Targets(Ptr(0)) && p[0] == p[1];
    assert {} + {0} == {0};
    assert EncodeRefs(heap, [Ptr(0)], {0}) == Err(CyclicValue);
    assert EncodeRefs(heap, items, {0}) == if Encode(atom).Ok? then Err(CyclicValue) else Err(Encode(atom).error);
    assert EncodeCell(heap, heap[0], {0})
      == if Encode(atom).Ok? then Err(CyclicValue) else Err(Encode(atom).error) by { assert Length8(2).Ok?; }
    TreesNeverReportCycles(atom);
    CyclicErrorExactly(heap, Ptr(0));
  }
}
