/**
 The encoder as it runs: over a graph of container objects that may share members or loop back,
 guarded by the set of objects being encoded at the moment.
 */
module ObjectGraph {
  import opened Wrappers
  import opened Scalars
  import opened Identity

  type Id = nat

  /** An atom is any value with no shared containers below it; everything else is a reference. */
  datatype Ref =
    | Atom(value: Value)
    | EnumMember(typeName: Text, inner: Ref)
    | Ptr(id: Id)

  datatype Pair = Pair(key: Ref, item: Ref)

  datatype Cell =
    | ListCell(items: seq<Ref>)
    | TupleCell(items: seq<Ref>)
    | SetCell(items: seq<Ref>)
    | FrozenSetCell(items: seq<Ref>)
    | MapCell(entries: seq<Pair>)
    | ObjectCell(dump: Ref)

  type Heap = map<Id, Cell>

  // The objects a reference or a cell points at

  function Targets(r: Ref): set<Id> {
    match r
    case Atom(_) => {}
    case EnumMember(_, inner) => Targets(inner)
    case Ptr(id) => {id}
  }

  function AllTargets(rs: seq<Ref>): set<Id> {
    if rs == [] then {} else Targets(rs[0]) + AllTargets(rs[1..])
  }

  function PairTargets(ps: seq<Pair>): set<Id> {
    if ps == [] then {} else Targets(ps[0].key) + Targets(ps[0].item) + PairTargets(ps[1..])
  }

  function CellTargets(c: Cell): set<Id> {
    match c
    case MapCell(entries) => PairTargets(entries)
    case ObjectCell(dump) => Targets(dump)
    case _ => AllTargets(c.items)
  }

  /** Every reference in the heap leads somewhere. */
  ghost predicate Closed(heap: Heap) {
    forall id | id in heap :: CellTargets(heap[id]) <= heap.Keys
  }

  // The specification of one encoder run

  function EncodeRef(heap: Heap, r: Ref, active: set<Id>): Outcome<Bytes>
    requires Closed(heap) && Targets(r) <= heap.Keys
    decreases heap.Keys - active, 0, r
  {
    match r
    case Atom(v) => Encode(v)
    case EnumMember(name, inner) =>
      var payload :- EnumPayload(name, EncodeRef(heap, inner, active));
      Frame(Tag(Enum(name, Null)), payload)
    case Ptr(id) =>
      if id in active then Err(CyclicValue)
      else EncodeCell(heap, heap[id], active + {id})
  }

  function EncodeCell(heap: Heap, cell: Cell, active: set<Id>): Outcome<Bytes>
    requires Closed(heap) && CellTargets(cell) <= heap.Keys
    decreases heap.Keys - active, 2
  {
    match cell
    case ListCell(items) =>
      var payload :- SequencePayload(|items|, EncodeRefs(heap, items, active));
      Frame(Tag(List([])), payload)
    case TupleCell(items) =>
      var payload :- SequencePayload(|items|, EncodeRefs(heap, items, active));
      Frame(Tag(Tuple([])), payload)
    case SetCell(items) =>
      var payload :- SetPayload(|items|, EncodeRefs(heap, items, active));
      Frame(Tag(Set([])), payload)
    case FrozenSetCell(items) =>
      var payload :- SetPayload(|items|, EncodeRefs(heap, items, active));
      Frame(Tag(FrozenSet([])), payload)
    case MapCell(entries) =>
      var payload :- MapPayload(|entries|, EncodePairs(heap, entries, active));
      Frame(Tag(Map([])), payload)
    case ObjectCell(dump) => EncodeRef(heap, dump, active)
  }

  function EncodeRefs(heap: Heap, rs: seq<Ref>, active: set<Id>): (result: Outcome<seq<Bytes>>)
    requires Closed(heap) && AllTargets(rs) <= heap.Keys
    ensures result.Ok? ==> |result.value| == |rs|
    decreases heap.Keys - active, 1, |rs|
  {
    if rs == [] then Ok([])
    else
      var first :- EncodeRef(heap, rs[0], active);
      var rest :- EncodeRefs(heap, rs[1..], active);
      Ok([first] + rest)
  }

  function EncodePairs(heap: Heap, ps: seq<Pair>, active: set<Id>): (result: Outcome<seq<(Bytes, Bytes)>>)
    requires Closed(heap) && PairTargets(ps) <= heap.Keys
    ensures result.Ok? ==> |result.value| == |ps|
    decreases heap.Keys - active, 1, |ps|
  {
    if ps == [] then Ok([])
    else
      var key :- EncodeRef(heap, ps[0].key, active);
      var item :- EncodeRef(heap, ps[0].item, active);
      var rest :- EncodePairs(heap, ps[1..], active);
      Ok([(key, item)] + rest)
  }

  /** The running encoder: the active set is shared by the whole recursion and updated in place. */
  class Encoder {
    var active: set<Id>

    constructor ()
      ensures active == {}
    {
      active := {};
    }

    /** Every exit, normal or exceptional, leaves the active set as it was found. */
    method Run(heap: Heap, r: Ref) returns (result: Outcome<Bytes>)
      requires Closed(heap) && Targets(r) <= heap.Keys
      modifies this
      ensures result == EncodeRef(heap, r, old(active))
      ensures active == old(active)
      decreases heap.Keys - active, 0, r
    {
      match r
      case Atom(v) =>
        result := Encode(v);
      case EnumMember(name, inner) =>
        var value := Run(heap, inner);
        var payload := EnumPayload(name, value);
        if payload.Err? {
          return Err(payload.error);
        }
        result := Frame(Tag(Enum(name, Null)), payload.value);
      case Ptr(id) =>
        if id in active {
          return Err(CyclicValue);
        }
        active := active + {id};
        result := RunCell(heap, heap[id]);
        active := active - {id};
    }

    method RunCell(heap: Heap, cell: Cell) returns (result: Outcome<Bytes>)
      requires Closed(heap) && CellTargets(cell) <= heap.Keys
      modifies this
      ensures result == EncodeCell(heap, cell, old(active))
      ensures active == old(active)
      decreases heap.Keys - active, 2
    {
      var payload: Outcome<Bytes>;
      var tag: Byte;
      match cell {
        case ListCell(items) =>
          var parts := RunAll(heap, items);
          tag, payload := Tag(List([])), SequencePayload(|items|, parts);
        case TupleCell(items) =>
          var parts := RunAll(heap, items);
          tag, payload := Tag(Tuple([])), SequencePayload(|items|, parts);
        case SetCell(items) =>
          var parts := RunAll(heap, items);
          tag, payload := Tag(Set([])), SetPayload(|items|, parts);
        case FrozenSetCell(items) =>
          var parts := RunAll(heap, items);
          tag, payload := Tag(FrozenSet([])), SetPayload(|items|, parts);
        case MapCell(entries) =>
          var parts := RunPairs(heap, entries);
          tag, payload := Tag(Map([])), MapPayload(|entries|, parts);
        case ObjectCell(dump) =>
          result := Run(heap, dump);
          return;
      }
      if payload.Err? {
        return Err(payload.error);
      }
      result := Frame(tag, payload.value);
    }

    method RunAll(heap: Heap, rs: seq<Ref>) returns (result: Outcome<seq<Bytes>>)
      requires Closed(heap) && AllTargets(rs) <= heap.Keys
      modifies this
      ensures result == EncodeRefs(heap, rs, old(active))
      ensures active == old(active)
      decreases heap.Keys - active, 1, |rs|
    {
      var parts: seq<Bytes> := [];
      var i := 0;
      assert rs[0..] == rs;
      PrependNothing(EncodeRefs(heap, rs, active));
      while i < |rs|
        invariant 0 <= i <= |rs| && active == old(active)
        invariant AllTargets(rs[i..]) <= heap.Keys
        invariant EncodeRefs(heap, rs, active) == Prepend(parts, EncodeRefs(heap, rs[i..], active))
      {
        assert rs[i..][1..] == rs[i + 1..] && rs[i..][0] == rs[i];
        var part := Run(heap, rs[i]);
        if part.Err? {
          return Err(part.error);
        }
        PrependMore(parts, part.value, EncodeRefs(heap, rs[i + 1..], active));
        parts := parts + [part.value];
        i := i + 1;
      }
      assert parts + [] == parts;
      result := Ok(parts);
    }

    method RunPairs(heap: Heap, ps: seq<Pair>) returns (result: Outcome<seq<(Bytes, Bytes)>>)
      requires Closed(heap) && PairTargets(ps) <= heap.Keys
      modifies this
      ensures result == EncodePairs(heap, ps, old(active))
      ensures active == old(active)
      decreases heap.Keys - active, 1, |ps|
    {
      var parts: seq<(Bytes, Bytes)> := [];
      var i := 0;
      assert ps[0..] == ps;
      PrependNothing(EncodePairs(heap, ps, active));
      while i < |ps|
        invariant 0 <= i <= |ps| && active == old(active)
        invariant PairTargets(ps[i..]) <= heap.Keys
        invariant EncodePairs(heap, ps, active) == Prepend(parts, EncodePairs(heap, ps[i..], active))
      {
        assert ps[i..][1..] == ps[i + 1..] && ps[i..][0] == ps[i];
        var key := Run(heap, ps[i].key);
        if key.Err? {
          return Err(key.error);
        }
        var item := Run(heap, ps[i].item);
        if item.Err? {
          return Err(item.error);
        }
        PrependMore(parts, (key.value, item.value), EncodePairs(heap, ps[i + 1..], active));
        parts := parts + [(key.value, item.value)];
        i := i + 1;
      }
      assert parts + [] == parts;
      result := Ok(parts);
    }
  }

  function Prepend<T>(parts: seq<T>, rest: Outcome<seq<T>>): Outcome<seq<T>> {
    var tail :- rest;
    Ok(parts + tail)
  }

  lemma PrependNothing<T>(rest: Outcome<seq<T>>)
    ensures Prepend([], rest) == rest
  {
    if rest.Ok? {
      assert [] + rest.value == rest.value;
    }
  }

  lemma PrependMore<T>(parts: seq<T>, x: T, rest: Outcome<seq<T>>)
    ensures Prepend(parts, Prepend([x], rest)) == Prepend(parts + [x], rest)
  {
    if rest.Ok? {
      assert parts + ([x] + rest.value) == parts + [x] + rest.value;
    }
  }
}
