/**
 The digest chain: filling a digest into the history does not change it, each action's child is
 the next action's parent, and no specification of a lineage shares its digest with another.
 */
module SpecLineage {
  import opened Wrappers
  import opened RuntimeSpec
  import opened SpecActions

  // Which parts of a document the key scan looks at, for any rule that leaves plain keys alone

  lemma FreeAppend(barred: Field -> bool, a: seq<Field>, b: seq<Field>)
    ensures FreeFields(barred, a + b) <==> FreeFields(barred, a) && FreeFields(barred, b)
  {
    var c := a + b;
    if FreeFields(barred, c) {
      forall i | 0 <= i < |a| ensures FreeField(barred, a[i]) {
        assert a[i] == c[i];
      }
      forall i | 0 <= i < |b| ensures FreeField(barred, b[i]) {
        assert b[i] == c[|a| + i];
      }
    }
  }

  ghost predicate AllFree<T>(barred: Field -> bool, dump: T -> Json, xs: seq<T>) {
    forall i :: 0 <= i < |xs| ==> Free(barred, dump(xs[i]))
  }

  lemma FreeListing<T>(barred: Field -> bool, dump: T -> Json, xs: seq<T>)
    ensures Free(barred, Listing(dump, xs)) <==> AllFree(barred, dump, xs)
  {
    var items := Listing(dump, xs).items;
    assert forall i :: 0 <= i < |xs| ==> items[i] == dump(xs[i]);
  }

  /** A key whose first two letters open no forbidden name. */
  predicate PlainKey(key: string) {
    && |key| >= 2 && !(key[0] == 'p' && key[1] == 'r') && !(key[0] == 's' && key[1] == 'e')
    && !(key[0] == 'h' && key[1] == 'i') && !(key[0] == 'o' && key[1] == 'r') && !(key[0] == 'a' && key[1] == 'u')
  }

  ghost predicate PermitsPlainKeys(barred: Field -> bool) {
    forall f: Field :: PlainKey(f.key) ==> !barred(f)
  }

  lemma {:induction false} PlainIsNotAmong(key: string, names: seq<string>)
    requires PlainKey(key) && forall i :: 0 <= i < |names| ==> |names[i]| >= 2 && !PlainKey(names[i])
    ensures !Among(key, names) && !StartsWithAny(key, names)
  {
    if names != [] {
      PlainIsNotAmong(key, names[1..]);
    }
  }

  lemma ForbiddenNamesAreNotPlain()
    ensures forall i :: 0 <= i < |FORBIDDEN_NAMES| ==> |FORBIDDEN_NAMES[i]| >= 2 && !PlainKey(FORBIDDEN_NAMES[i])
    ensures forall i :: 0 <= i < |FORBIDDEN_PREFIXES| ==> |FORBIDDEN_PREFIXES[i]| >= 2 && !PlainKey(FORBIDDEN_PREFIXES[i])
  {
  }

  lemma BarredPermitsPlainKeys()
    ensures PermitsPlainKeys(Barred)
  {
    ForbiddenNamesAreNotPlain();
    forall f: Field | PlainKey(f.key) ensures !Barred(f) {
      PlainIsNotAmong(f.key, FORBIDDEN_NAMES);
      PlainIsNotAmong(f.key, FORBIDDEN_PREFIXES);
    }
  }

  ghost predicate FreeParts(barred: Field -> bool, s: Spec) {
    && AllFree(barred, DumpAgent, s.agents) && Free(barred, DumpGraph(s.graph)) && AllFree(barred, DumpTool, s.tools)
    && AllFree(barred, DumpModel, s.models) && Free(barred, s.memory) && Free(barred, s.execution)
    && AllFree(barred, DumpRef, s.history) && Free(barred, s.metadata) && FreeFields(barred, s.rest)
  }

  function OwnFields(s: Spec): (fields: seq<Field>)
    ensures |fields| == 10
  {
    [Field("runtime_id", Str(s.runtimeId)), Field("agents", Listing(DumpAgent, s.agents)),
     Field("graph", DumpGraph(s.graph)), Field("tools", Listing(DumpTool, s.tools)),
     Field("models", Listing(DumpModel, s.models)), Field("memory", s.memory), Field("execution", s.execution),
     Field("mutation_history", Listing(DumpRef, s.history)), Field("created_at", Number(s.createdAt)),
     Field("metadata", s.metadata)]
  }

  ghost predicate AllPlain(fields: seq<Field>) {
    forall i :: 0 <= i < |fields| ==> PlainKey(fields[i].key)
  }

  lemma OwnKeysArePlain(s: Spec)
    ensures AllPlain(OwnFields(s))
  {
  }

  lemma FreeOwnFields(barred: Field -> bool, s: Spec)
    requires PermitsPlainKeys(barred)
    ensures FreeFields(barred, OwnFields(s)) <==>
      && Free(barred, Listing(DumpAgent, s.agents)) && Free(barred, DumpGraph(s.graph))
      && Free(barred, Listing(DumpTool, s.tools)) && Free(barred, Listing(DumpModel, s.models))
      && Free(barred, s.memory) && Free(barred, s.execution)
      && Free(barred, Listing(DumpRef, s.history)) && Free(barred, s.metadata)
  {
    OwnKeysArePlain(s);
    TenPlainFields(barred, OwnFields(s));
    OwnValues(s);
    assert Free(barred, Str(s.runtimeId)) && Free(barred, Number(s.createdAt));
  }

  lemma OwnValues(s: Spec)
    ensures var f := OwnFields(s);
      && f[0].value == Str(s.runtimeId) && f[1].value == Listing(DumpAgent, s.agents) && f[2].value == DumpGraph(s.graph)
      && f[3].value == Listing(DumpTool, s.tools) && f[4].value == Listing(DumpModel, s.models)
      && f[5].value == s.memory && f[6].value == s.execution && f[7].value == Listing(DumpRef, s.history)
      && f[8].value == Number(s.createdAt) && f[9].value == s.metadata
  {
  }

  lemma TenPlainFields(barred: Field -> bool, f: seq<Field>)
    requires |f| == 10 && PermitsPlainKeys(barred) && AllPlain(f)
    ensures FreeFields(barred, f) <==>
      && Free(barred, f[0].value) && Free(barred, f[1].value) && Free(barred, f[2].value) && Free(barred, f[3].value)
      && Free(barred, f[4].value) && Free(barred, f[5].value) && Free(barred, f[6].value) && Free(barred, f[7].value)
      && Free(barred, f[8].value) && Free(barred, f[9].value)
  {
    PlainFields(barred, f);
  }

  lemma PlainFields(barred: Field -> bool, f: seq<Field>)
    requires PermitsPlainKeys(barred) && AllPlain(f)
    ensures FreeFields(barred, f) <==> forall i :: 0 <= i < |f| ==> Free(barred, f[i].value)
  {
    if forall i :: 0 <= i < |f| ==> Free(barred, f[i].value) {
      forall i | 0 <= i < |f| ensures FreeField(barred, f[i]) {
        assert PlainKey(f[i].key) && Free(barred, f[i].value);
      }
    }
    if FreeFields(barred, f) {
      forall i | 0 <= i < |f| ensures Free(barred, f[i].value) {
        assert FreeField(barred, f[i]);
      }
    }
  }

  lemma ParentFieldIsFree(barred: Field -> bool, parent: Option<SpecDigest>)
    requires PermitsPlainKeys(barred)
    ensures FreeFields(barred, ParentField(parent))
  {
    PlainFields(barred, ParentField(parent));
  }

  lemma FreeDump(barred: Field -> bool, s: Spec)
    requires PermitsPlainKeys(barred)
    ensures Free(barred, Dump(s)) <==> FreeParts(barred, s)
  {
    FreeAppend(barred, OwnFields(s) + ParentField(s.parent), s.rest);
    FreeAppend(barred, OwnFields(s), ParentField(s.parent));
    ParentFieldIsFree(barred, s.parent);
    FreeOwnFields(barred, s);
    FreeListing(barred, DumpAgent, s.agents);
    FreeListing(barred, DumpTool, s.tools);
    FreeListing(barred, DumpModel, s.models);
    FreeListing(barred, DumpRef, s.history);
  }

  lemma NewRefIsFree(barred: Field -> bool, a: Action, parent: SpecDigest, child: Option<SpecDigest>)
    requires PermitsPlainKeys(barred)
    ensures Free(barred, DumpRef(NewRef(a, parent, child)))
  {
    var ref := NewRef(a, parent, child);
    RefMetadataIsFree(barred, a);
    RefKeysArePlain(ref);
    PlainFields(barred, DumpRef(ref).fields);
    RefValues(ref);
    forall i | 0 <= i < |DumpRef(ref).fields| ensures Free(barred, DumpRef(ref).fields[i].value) {
      assert i == 5 || LeafValue(DumpRef(ref).fields[i].value);
    }
  }

  predicate LeafValue(v: Json) {
    v.Str? || v.Number? || v.Hash?
  }

  lemma RefValues(ref: ActionRef)
    ensures var f := DumpRef(ref).fields;
      |f| == 6 && f[5].value == ref.metadata && forall i :: 0 <= i < 5 ==> LeafValue(f[i].value)
  {
  }

  lemma RefKeysArePlain(ref: ActionRef)
    ensures AllPlain(DumpRef(ref).fields)
  {
  }

  lemma RefMetadataIsFree(barred: Field -> bool, a: Action)
    requires PermitsPlainKeys(barred)
    ensures Free(barred, RefMetadata(a))
  {
    assert Free(barred, Strings(a.scope));
    PlainFields(barred, RefMetadata(a).fields);
  }

  // One action

  lemma {:induction false} RemoveAgentsKeepsTheRest(s: Spec, targets: seq<string>)
    requires RemoveAgents(s, targets).Ok?
    ensures RemoveAgents(s, targets).value == s.(agents := RemoveAgents(s, targets).value.agents)
    decreases |targets|
  {
    if targets != [] {
      RemoveAgentsKeepsTheRest(s.(agents := RemoveById(AgentId, s.agents, targets[0])), targets[1..]);
    }
  }

  lemma RewriteKeepsHistory(s: Spec, change: Change)
    requires Rewrite(s, change).Ok?
    ensures Rewrite(s, change).value.0.history == s.history
  {
    if change.RemoveAgent? {
      RemoveAgentsKeepsTheRest(s, change.targets);
    }
  }

  lemma AppendedHistoryIsFree(barred: Field -> bool, s: Spec, ref: ActionRef)
    requires PermitsPlainKeys(barred) && Free(barred, Dump(s)) && Free(barred, DumpRef(ref))
    ensures Free(barred, Dump(s.(history := s.history + [ref])))
  {
    FreeDump(barred, s);
    FreeDump(barred, s.(history := s.history + [ref]));
  }

  lemma AppendedHistoryIsValid(s: Spec, ref: ActionRef)
    requires ValidSpec(s) && Public(DumpRef(ref))
    ensures ValidSpec(s.(history := s.history + [ref]))
  {
    BarredPermitsPlainKeys();
    AppendedHistoryIsFree(Barred, s, ref);
    var t := s.(history := s.history + [ref]);
    assert UniqueIds(t) && ValidGraph(t.graph);
    forall i | 0 <= i < |t.agents| ensures AgentResolves(t, t.agents[i]) {
      assert AgentResolves(s, s.agents[i]);
    }
    forall i | 0 <= i < |t.graph.nodes| ensures NodeResolves(t, t.graph.nodes[i]) {
      assert NodeResolves(s, s.graph.nodes[i]);
    }
  }

  /** The recorded child digest is the digest of the child it is recorded in. */
  lemma RecordedDigestIsItsOwn(s: Spec, a: Action, parent: SpecDigest)
    ensures var child := Record(s, a, parent);
      && child.history[..|s.history|] == s.history && |child.history| == |s.history| + 1
      && child.history[|s.history|].child == Some(DigestOf(child))
      && child.history[|s.history|].parent == Some(parent)
      && DigestOf(child) == DigestOf(s.(history := s.history + [NewRef(a, parent, None)]))
  {
    var unfilled := s.(history := s.history + [NewRef(a, parent, None)]);
    var child := Record(s, a, parent);
    DigestIgnoresFillIns(unfilled, child.history);
    assert unfilled.(history := child.history) == child;
  }

  ghost predicate Linked(s: Spec, a: Action, child: Spec, result: ActionResult) {
    && result.actionId == a.id && result.parent == DigestOf(s) && result.child == DigestOf(child)
    && child.parent == Some(DigestOf(s))
    && |child.history| == |s.history| + 1 && child.history[..|s.history|] == s.history
    && child.history[|s.history|] == NewRef(a, DigestOf(s), Some(DigestOf(child)))
  }

  /** What an applied action did: a rewrite that stayed valid, with its entry recorded. */
  lemma AppliedAction(s: Spec, a: Action) returns (rewritten: Spec)
    requires ApplyAction(s, a).Ok?
    ensures ValidSpec(s) && ValidSpec(rewritten) && Rewrite(s, a.change).Ok?
    ensures rewritten == Rewrite(s, a.change).value.0.(parent := Some(DigestOf(s)))
    ensures ApplyAction(s, a).value.0 == Record(rewritten, a, DigestOf(s))
    ensures ApplyAction(s, a).value.1 == ActionResult(
        a.id, DigestOf(s), DigestOf(rewritten.(history := rewritten.history + [NewRef(a, DigestOf(s), None)])),
        Rewrite(s, a.change).value.1)
  {
    rewritten := Rewrite(s, a.change).value.0.(parent := Some(DigestOf(s)));
  }

  lemma RecordIsValid(s: Spec, a: Action, parent: SpecDigest)
    requires ValidSpec(s)
    ensures ValidSpec(Record(s, a, parent))
  {
    var filled := NewRef(a, parent, Some(DigestOf(s.(history := s.history + [NewRef(a, parent, None)]))));
    BarredPermitsPlainKeys();
    NewRefIsFree(Barred, a, parent, filled.child);
    AppendedHistoryIsValid(s, filled);
  }

  /** An applied action leaves a valid child that names its parent and itself. */
  lemma AppliedActionLinks(s: Spec, a: Action)
    requires ApplyAction(s, a).Ok?
    ensures ValidSpec(s) && ValidSpec(ApplyAction(s, a).value.0)
    ensures Linked(s, a, ApplyAction(s, a).value.0, ApplyAction(s, a).value.1)
  {
    var child := AppliedAction(s, a);
    RewriteKeepsHistory(s, a.change);
    RecordedDigestIsItsOwn(child, a, DigestOf(s));
    RecordIsValid(child, a, DigestOf(s));
  }

  // A sequence of actions

  function After(s: Spec, actions: seq<Action>, k: nat): Spec
    requires k <= |actions| && ApplyActions(s, actions[..k]).Ok?
  {
    ApplyActions(s, actions[..k]).value.0
  }

  lemma ContinueSplits(s: Spec, actions: seq<Action>)
    requires actions != [] && ApplyActions(s, actions).Ok?
    ensures ApplyActions(s, actions[..|actions| - 1]).Ok?
    ensures var before := ApplyActions(s, actions[..|actions| - 1]).value;
      && ApplyAction(before.0, actions[|actions| - 1]).Ok?
      && ApplyActions(s, actions).value.0 == ApplyAction(before.0, actions[|actions| - 1]).value.0
      && ApplyActions(s, actions).value.1 == before.1 + [ApplyAction(before.0, actions[|actions| - 1]).value.1]
  {
  }

  /** Every result's child digest is the next result's parent digest, from the first parent to the last child. */
  ghost predicate Chained(first: SpecDigest, results: seq<ActionResult>, last: SpecDigest) {
    && (if results == [] then first == last else results[0].parent == first && results[|results| - 1].child == last)
    && forall i :: 0 <= i < |results| - 1 ==> results[i].child == results[i + 1].parent
  }

  lemma ChainGrows(first: SpecDigest, results: seq<ActionResult>, middle: SpecDigest, r: ActionResult)
    requires Chained(first, results, middle) && r.parent == middle
    ensures Chained(first, results + [r], r.child)
  {
    var all := results + [r];
    forall i | 0 <= i < |all| - 1 ensures all[i].child == all[i + 1].parent {
      if i < |results| - 1 {
        assert results[i].child == results[i + 1].parent;
      }
    }
  }

  /** Across any list of actions the digests form one chain, and the history grows by one per action. */
  lemma {:induction false} ActionsFormAChain(s: Spec, actions: seq<Action>)
    requires ApplyActions(s, actions).Ok?
    ensures var (child, results) := ApplyActions(s, actions).value;
      && ValidSpec(child) && |results| == |actions|
      && Chained(DigestOf(s), results, DigestOf(child))
      && |child.history| == |s.history| + |actions| && child.history[..|s.history|] == s.history
  {
    if actions != [] {
      var n := |actions| - 1;
      ContinueSplits(s, actions);
      ActionsFormAChain(s, actions[..n]);
      var before := ApplyActions(s, actions[..n]).value;
      AppliedActionLinks(before.0, actions[n]);
      var next := ApplyAction(before.0, actions[n]).value;
      ChainGrows(DigestOf(s), before.1, DigestOf(before.0), next.1);
      assert next.0.history[..|s.history|] == next.0.history[..|before.0.history|][..|s.history|];
    }
  }

  lemma {:induction false} PrefixApplies(s: Spec, actions: seq<Action>, k: nat)
    requires k <= |actions| && ApplyActions(s, actions).Ok?
    ensures ApplyActions(s, actions[..k]).Ok?
  {
    if k == |actions| {
      assert actions[..k] == actions;
    } else {
      var n := |actions| - 1;
      ContinueSplits(s, actions);
      PrefixApplies(s, actions[..n], k);
      assert actions[..n][..k] == actions[..k];
    }
  }

  /** No digest ever repeats in a lineage. */
  lemma NoDigestRepeats(s: Spec, actions: seq<Action>, i: nat, j: nat)
    requires i < j <= |actions| && ApplyActions(s, actions).Ok?
    ensures ApplyActions(s, actions[..i]).Ok? && ApplyActions(s, actions[..j]).Ok?
    ensures DigestOf(After(s, actions, i)) != DigestOf(After(s, actions, j))
  {
    PrefixApplies(s, actions, i);
    PrefixApplies(s, actions, j);
    ActionsFormAChain(s, actions[..i]);
    ActionsFormAChain(s, actions[..j]);
    if DigestOf(After(s, actions, i)) == DigestOf(After(s, actions, j)) {
      DigestShowsHistoryLength(After(s, actions, i), After(s, actions, j));
    }
  }

  // The loop over the actions

  lemma {:induction false} RefusalLasts(s: Spec, actions: seq<Action>, k: nat)
    requires k <= |actions| && ApplyActions(s, actions[..k]).Err?
    ensures ApplyActions(s, actions) == ApplyActions(s, actions[..k])
  {
    if k == |actions| {
      assert actions[..k] == actions;
    } else {
      var n := |actions| - 1;
      assert actions[..n][..k] == actions[..k];
      RefusalLasts(s, actions[..n], k);
    }
  }

  /** The actions before `k` apply, and action `k` is refused on the spec they lead to. */
  predicate RefusedAt(s: Spec, actions: seq<Action>, k: nat, error: SpecError) {
    && k < |actions| && ApplyActions(s, actions[..k]).Ok?
    && ApplyAction(After(s, actions, k), actions[k]) == Err(error)
  }

  /**
   Applies the actions one after the other. A success is a whole chain from the given spec to a valid
   one; a failure is that of the first action refused, or of a spec that was invalid to begin with.
   */
  method ApplySpecActions(s: Spec, actions: seq<Action>) returns (result: Result<(Spec, seq<ActionResult>), SpecError>)
    ensures result == ApplyActions(s, actions)
    ensures result.Ok? ==>
      && ValidSpec(result.value.0) && |result.value.1| == |actions|
      && Chained(DigestOf(s), result.value.1, DigestOf(result.value.0))
      && |result.value.0.history| == |s.history| + |actions| && result.value.0.history[..|s.history|] == s.history
    ensures result.Err? ==>
      (!ValidSpec(s) && result.error == InvalidParent) || exists k :: RefusedAt(s, actions, k, result.error)
  {
    assert actions[..0] == [];
    if !ValidSpec(s) {
      RefusalLasts(s, actions, 0);
      return Err(InvalidParent);
    }
    var current, results := s, [];
    for k := 0 to |actions|
      invariant ApplyActions(s, actions[..k]) == Ok((current, results))
    {
      assert actions[..k + 1][..k] == actions[..k];
      var next := ApplyAction(current, actions[k]);
      if next.Err? {
        RefusalLasts(s, actions, k + 1);
        assert RefusedAt(s, actions, k, next.error);
        return Err(next.error);
      }
      current, results := next.value.0, results + [next.value.1];
    }
    assert actions[..|actions|] == actions;
    ActionsFormAChain(s, actions);
    result := Ok((current, results));
  }
}
