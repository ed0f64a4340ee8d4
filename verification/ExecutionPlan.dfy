/**
 Execution plans: nodes with dependencies, branch groups and merge nodes. The validator is the
 source's own: a depth-first search with visiting and visited sets, a reachability marking, and
 the output and branch-group checks. It accepts exactly the plans that `ValidPlan` describes.
 */
module ExecutionPlan {
  import opened Scalars

  datatype Kind =
    | BuiltinOp | MemoryLookup | ToolCall | ToolSynthesis | DirectResponse
    | RepoPatch | ServiceAction | Merge | Verify

  predicate ValueProducing(kind: Kind) {
    kind != Verify
  }

  predicate Branchable(kind: Kind) {
    kind != Merge && kind != Verify
  }

  /**
   A node. An absent branch group is the empty text. `serviceOk` is the outcome of a service node's
   checks of its url, method and transport.
   */
  datatype Node = Node(
    id: Text, kind: Kind, dependencies: seq<Text>, outputKey: Text, branchGroup: Text,
    consumesGroup: Text, consumesIds: seq<Text>, toolHint: Text, categories: seq<Text>, categoryHint: Text,
    expression: Text, template: Text, targets: seq<Text>, serviceOk: bool)

  datatype Plan = Plan(
    nodes: seq<Node>, roots: seq<Text>, terminalKeys: seq<Text>,
    verificationTerminals: seq<Text>, verificationRequired: bool)

  datatype Problem =
    | DuplicateNode | UnknownRoot | UnknownTerminalNode | UnknownDependency | NotBranchable
    | BadShape | BadMerge | BadVerify | CyclicPlan | DuplicateOutput | UnproducedTerminalKey
    | VerifyProducesTerminal | UnequalFrontier | MissingVerifyNode

  datatype Verdict = Accepted | Rejected(problem: Problem)

  // The dependency graph

  type Graph = map<Text, Node>

  function NodeMap(nodes: seq<Node>): Graph {
    if nodes == [] then map[]
    else NodeMap(nodes[..|nodes| - 1])[nodes[|nodes| - 1].id := nodes[|nodes| - 1]]
  }

  ghost predicate Closed(g: Graph) {
    forall id, k :: id in g && 0 <= k < |g[id].dependencies| ==> g[id].dependencies[k] in g
  }

  /** Each node of a walk depends on the next. */
  ghost predicate Walk(g: Graph, p: seq<Text>) {
    && p != []
    && (forall i :: 0 <= i < |p| ==> p[i] in g)
    && forall i :: 0 <= i < |p| - 1 ==> p[i + 1] in g[p[i]].dependencies
  }

  ghost predicate DependsOn(g: Graph, a: Text, b: Text) {
    exists p: seq<Text> :: Walk(g, p) && |p| >= 2 && p[0] == a && p[|p| - 1] == b
  }

  ghost predicate Cyclic(g: Graph) {
    exists a :: DependsOn(g, a, a)
  }

  /** `id` is a root or depends, through any number of steps, on one. */
  ghost predicate Reachable(g: Graph, roots: seq<Text>, id: Text) {
    exists p: seq<Text> :: Walk(g, p) && p[0] == id && p[|p| - 1] in roots
  }

  /** Every dependency is listed before the node that needs it, and nothing is listed twice. */
  ghost predicate Topological(g: Graph, order: seq<Text>) {
    && (forall i, j :: 0 <= i < j < |order| ==> order[i] != order[j])
    && forall i :: 0 <= i < |order| ==>
         order[i] in g && forall d :: d in g[order[i]].dependencies ==> d in order[..i]
  }

  // What a plan must satisfy

  function GroupMembers(nodes: seq<Node>, group: Text): seq<Text> {
    if nodes == [] then []
    else if nodes[0].branchGroup == group then [nodes[0].id] + GroupMembers(nodes[1..], group)
    else GroupMembers(nodes[1..], group)
  }

  function NonBlank(texts: seq<Text>): seq<Text> {
    if texts == [] then []
    else if Strip(texts[0]) != [] then [Strip(texts[0])] + NonBlank(texts[1..])
    else NonBlank(texts[1..])
  }

  predicate MergeRule(plan: Plan, node: Node) {
    var group := Strip(node.consumesGroup);
    var members := GroupMembers(plan.nodes, group);
    var consumes := NonBlank(node.consumesIds);
    group != [] && members != [] && node.dependencies == members && (consumes == [] || consumes == members)
  }

  predicate VerifyRule(plan: Plan, node: Node, g: Graph)
    requires forall k :: 0 <= k < |node.dependencies| ==> node.dependencies[k] in g
  {
    && node.dependencies != []
    && Strip(node.outputKey) !in plan.terminalKeys
    && forall k :: 0 <= k < |node.dependencies| ==> ValueProducing(g[node.dependencies[k]].kind)
  }

  /** What a node's own fields must hold, by its kind. */
  predicate ShapeRule(node: Node) {
    && (node.kind in {ToolCall, ToolSynthesis} ==>
          Strip(node.toolHint) != [] || node.categories != [] || Strip(node.categoryHint) != [])
    && (node.kind == ToolSynthesis ==> Strip(node.expression) != [] || Strip(node.template) != [])
    && (node.kind == RepoPatch ==> NonBlank(node.targets) != [])
    && (node.kind == ServiceAction ==> node.serviceOk)
  }

  predicate NodeRule(plan: Plan, node: Node, g: Graph) {
    && (forall k :: 0 <= k < |node.dependencies| ==> node.dependencies[k] in g)
    && (node.branchGroup != [] ==> Branchable(node.kind))
    && ShapeRule(node)
    && (node.kind == Merge ==> MergeRule(plan, node))
    && (node.kind == Verify ==> VerifyRule(plan, node, g))
  }

  ghost predicate DistinctIds(nodes: seq<Node>) {
    forall i, j :: 0 <= i < j < |nodes| ==> nodes[i].id != nodes[j].id
  }

  /** The node is reachable and produces a value under a key that is not blank. */
  ghost predicate Produces(plan: Plan, node: Node) {
    && Reachable(NodeMap(plan.nodes), plan.roots, node.id)
    && Strip(node.outputKey) != []
    && ValueProducing(node.kind)
  }

  ghost predicate UniqueProducers(plan: Plan) {
    forall i, j :: 0 <= i < j < |plan.nodes| && Produces(plan, plan.nodes[i]) && Produces(plan, plan.nodes[j]) ==>
      plan.nodes[i].outputKey != plan.nodes[j].outputKey
  }

  ghost predicate KeyProduced(plan: Plan, key: Text) {
    exists i :: 0 <= i < |plan.nodes| && Produces(plan, plan.nodes[i]) && plan.nodes[i].outputKey == key
  }

  ghost predicate TerminalKeysProduced(plan: Plan) {
    forall k :: 0 <= k < |plan.terminalKeys| ==> KeyProduced(plan, plan.terminalKeys[k])
  }

  ghost predicate EqualFrontiers(nodes: seq<Node>) {
    forall i, j :: 0 <= i < j < |nodes| && SameGroup(nodes[i], nodes[j]) ==>
      nodes[i].dependencies == nodes[j].dependencies
  }

  predicate SameGroup(a: Node, b: Node) {
    a.branchGroup != [] && a.branchGroup == b.branchGroup
  }

  /** Ids are unique, names resolve, and every node satisfies its own rules. */
  ghost predicate WellReferenced(plan: Plan) {
    var g := NodeMap(plan.nodes);
    && DistinctIds(plan.nodes)
    && (forall k :: 0 <= k < |plan.roots| ==> plan.roots[k] in g)
    && (forall k :: 0 <= k < |plan.verificationTerminals| ==> plan.verificationTerminals[k] in g)
    && (forall i :: 0 <= i < |plan.nodes| ==> NodeRule(plan, plan.nodes[i], g))
  }

  ghost predicate ValidPlan(plan: Plan) {
    var nodes := plan.nodes;
    var g := NodeMap(nodes);
    && WellReferenced(plan)
    && !Cyclic(g)
    && UniqueProducers(plan)
    && TerminalKeysProduced(plan)
    && EqualFrontiers(nodes)
    && (plan.verificationRequired ==> exists i :: 0 <= i < |nodes| && nodes[i].kind == Verify)
  }

  // Facts about node maps and walks

  ghost predicate HasId(nodes: seq<Node>, id: Text) {
    exists i :: 0 <= i < |nodes| && nodes[i].id == id
  }

  lemma {:induction false} NodeMapDomain(nodes: seq<Node>, id: Text)
    ensures id in NodeMap(nodes) <==> HasId(nodes, id)
    ensures id in NodeMap(nodes) ==> NodeMap(nodes)[id].id == id && NodeMap(nodes)[id] in nodes
  {
    if nodes != [] {
      var n := |nodes| - 1;
      var head := nodes[..n];
      NodeMapDomain(head, id);
      if HasId(head, id) {
        var i :| 0 <= i < n && head[i].id == id;
        assert nodes[i].id == id;
      }
      if HasId(nodes, id) && nodes[n].id != id {
        var i :| 0 <= i < |nodes| && nodes[i].id == id;
        assert head[i].id == id;
      }
    }
  }

  lemma {:induction false} NodeMapContent(nodes: seq<Node>, i: nat)
    requires DistinctIds(nodes) && i < |nodes|
    ensures nodes[i].id in NodeMap(nodes) && NodeMap(nodes)[nodes[i].id] == nodes[i]
  {
    var n := |nodes| - 1;
    if i < n {
      assert nodes[..n][i] == nodes[i];
      NodeMapContent(nodes[..n], i);
      assert nodes[n].id != nodes[i].id;
    }
  }

  lemma {:induction false} NodeMapSize(nodes: seq<Node>)
    ensures |NodeMap(nodes)| <= |nodes|
    ensures |NodeMap(nodes)| == |nodes| <==> DistinctIds(nodes)
  {
    if nodes != [] {
      var n := |nodes| - 1;
      var head, last := nodes[..n], nodes[n];
      var m := NodeMap(head);
      NodeMapSize(head);
      NodeMapDomain(head, last.id);
      var m' := m[last.id := last];
      assert NodeMap(nodes) == m';
      if last.id in m {
        assert m'.Keys == m.Keys;
        assert |m'| == |m'.Keys| == |m|;
        var i :| 0 <= i < |head| && head[i].id == last.id;
        assert nodes[i].id == nodes[n].id;
      } else {
        assert m'.Keys == m.Keys + {last.id};
        assert |m'| == |m'.Keys| == |m| + 1;
        DistinctSnoc(nodes);
      }
    }
  }

  lemma DistinctSnoc(nodes: seq<Node>)
    requires nodes != [] && !HasId(nodes[..|nodes| - 1], nodes[|nodes| - 1].id)
    ensures DistinctIds(nodes) <==> DistinctIds(nodes[..|nodes| - 1])
  {
    var n := |nodes| - 1;
    var head := nodes[..n];
    if DistinctIds(head) {
      forall i, j | 0 <= i < j < |nodes| ensures nodes[i].id != nodes[j].id {
        assert head[i].id == nodes[i].id;
      }
    }
  }

  // The validator

  class Validator {
    const plan: Plan
    var visiting: set<Text>
    var visited: set<Text>
    var reachable: set<Text>
    /** The order in which the search finishes with nodes. */
    ghost var order: seq<Text>

    constructor (plan: Plan)
      ensures this.plan == plan
      ensures visiting == {} && visited == {} && reachable == {} && order == []
    {
      this.plan := plan;
      visiting, visited, reachable, order := {}, {}, {}, [];
    }

    /**
     What holds between any two steps of the search: `stack` is the chain of nodes in progress,
     and the finished nodes are in topological order.
     */
    ghost predicate Searching(g: Graph, stack: seq<Text>)
      reads this
    {
      && (forall x :: x in visiting <==> x in stack)
      && (stack == [] || Walk(g, stack))
      && visiting !! visited
      && (forall x :: x in visited <==> x in order)
      && Topological(g, order)
    }

    /** Depth-first search from `id`; false stands for the raised error. */
    method Visit(g: Graph, id: Text, ghost stack: seq<Text>) returns (ok: bool)
      requires Closed(g) && id in g && visiting <= g.Keys && Searching(g, stack)
      requires stack != [] ==> id in g[stack[|stack| - 1]].dependencies
      modifies this`visiting, this`visited, this`order
      ensures ok ==> Searching(g, stack) && visiting == old(visiting)
      ensures ok ==> old(visited) <= visited && id in visited
      ensures !ok ==> Cyclic(g)
      decreases g.Keys - visiting
    {
      if id in visited {
        return true;
      }
      if id in visiting {
        RepeatedOnStack(g, stack, id);
        return false;
      }
      visiting := visiting + {id};
      ghost var stack' := stack + [id];
      StackGrows(g, stack, id);
      var dependencies := g[id].dependencies;
      var i := 0;
      while i < |dependencies|
        invariant 0 <= i <= |dependencies|
        invariant Searching(g, stack') && visiting == old(visiting) + {id}
        invariant old(visited) <= visited
        invariant forall k :: 0 <= k < i ==> dependencies[k] in visited
      {
        var fine := Visit(g, dependencies[i], stack');
        if !fine {
          return false;
        }
        i := i + 1;
      }
      visiting := visiting - {id};
      visited := visited + {id};
      TopologicalSnoc(g, order, id);
      order := order + [id];
      ok := true;
    }

    /** Searches from every node in turn. */
    method CheckAcyclic(g: Graph) returns (ok: bool)
      requires g == NodeMap(plan.nodes) && Closed(g)
      requires visiting == {} && visited == {} && order == []
      modifies this`visiting, this`visited, this`order
      ensures ok <==> !Cyclic(g)
      ensures ok ==> Topological(g, order) && forall id :: id in g ==> id in order
    {
      var nodes := plan.nodes;
      forall i | 0 <= i < |nodes| ensures nodes[i].id in g {
        assert HasId(nodes, nodes[i].id);
        NodeMapDomain(nodes, nodes[i].id);
      }
      var i := 0;
      while i < |nodes|
        invariant 0 <= i <= |nodes|
        invariant Searching(g, []) && visiting == {}
        invariant forall k :: 0 <= k < i ==> nodes[k].id in visited
      {
        var fine := Visit(g, nodes[i].id, []);
        if !fine {
          return false;
        }
        i := i + 1;
      }
      forall id | id in g ensures id in order {
        NodeMapDomain(nodes, id);
      }
      TopologicalMeansAcyclic(g, order);
      ok := true;
    }

    /** Marks `id` and everything that depends on it, however indirectly. */
    method Mark(g: Graph, id: Text)
      requires DistinctIds(plan.nodes) && g == NodeMap(plan.nodes) && Closed(g)
      requires id in g && reachable <= g.Keys
      modifies this`reachable
      ensures old(reachable) <= reachable <= g.Keys && id in reachable
      ensures forall x :: x in reachable && x !in old(reachable) ==>
        Leads(g, x, id) && DependentsMarked(plan.nodes, x, reachable)
      decreases g.Keys - reachable
    {
      if id in reachable {
        return;
      }
      reachable := reachable + {id};
      assert Walk(g, [id]);
      assert Leads(g, id, id);
      var nodes := plan.nodes;
      var i := 0;
      while i < |nodes|
        invariant 0 <= i <= |nodes|
        invariant old(reachable) + {id} <= reachable <= g.Keys
        invariant forall k :: 0 <= k < i && id in nodes[k].dependencies ==> nodes[k].id in reachable
        invariant forall x :: x in reachable && x !in old(reachable) ==>
          Leads(g, x, id) && (x != id ==> DependentsMarked(nodes, x, reachable))
      {
        if id in nodes[i].dependencies {
          NodeMapContent(nodes, i);
          label before:
          Mark(g, nodes[i].id);
          forall x | x in reachable && x !in old@before(reachable) ensures Leads(g, x, id) {
            LeadsOn(g, x, nodes[i].id, id);
          }
        }
        i := i + 1;
      }
    }

    /** Marks from every root; what is marked is what is reachable. */
    method MarkRoots(g: Graph)
      requires DistinctIds(plan.nodes) && g == NodeMap(plan.nodes) && Closed(g)
      requires reachable == {}
      requires forall k :: 0 <= k < |plan.roots| ==> plan.roots[k] in g
      modifies this`reachable
      ensures forall id :: id in reachable <==> Reachable(g, plan.roots, id)
    {
      var roots := plan.roots;
      var i := 0;
      while i < |roots|
        invariant 0 <= i <= |roots|
        invariant reachable <= g.Keys
        invariant forall k :: 0 <= k < i ==> roots[k] in reachable
        invariant forall x :: x in reachable ==>
          Reachable(g, roots, x) && DependentsMarked(plan.nodes, x, reachable)
      {
        label before:
        Mark(g, roots[i]);
        forall x | x in reachable && x !in old@before(reachable) ensures Reachable(g, roots, x) {
          var p: seq<Text> :| Walk(g, p) && p[0] == x && p[|p| - 1] == roots[i];
        }
        i := i + 1;
      }
      forall x | Reachable(g, roots, x) ensures x in reachable {
        var p: seq<Text> :| Walk(g, p) && p[0] == x && p[|p| - 1] in roots;
        WalkIsMarked(plan.nodes, g, p, reachable);
      }
    }

    /** The checks on single nodes, in the order in which they are made. */
    method CheckNodes(g: Graph) returns (verdict: Verdict)
      requires g == NodeMap(plan.nodes)
      ensures verdict.Accepted? <==> forall i :: 0 <= i < |plan.nodes| ==> NodeRule(plan, plan.nodes[i], g)
      ensures verdict.Accepted? || verdict.problem in
        {UnknownDependency, NotBranchable, BadShape, BadMerge, BadVerify}
    {
      var i := 0;
      while i < |plan.nodes|
        invariant 0 <= i <= |plan.nodes|
        invariant forall k :: 0 <= k < i ==> NodeRule(plan, plan.nodes[k], g)
      {
        var node := plan.nodes[i];
        if exists k :: 0 <= k < |node.dependencies| && node.dependencies[k] !in g {
          return Rejected(UnknownDependency);
        }
        if node.branchGroup != [] && !Branchable(node.kind) {
          return Rejected(NotBranchable);
        }
        if !ShapeRule(node) {
          return Rejected(BadShape);
        }
        if node.kind == Merge && !MergeRule(plan, node) {
          return Rejected(BadMerge);
        }
        if node.kind == Verify && !VerifyRule(plan, node, g) {
          return Rejected(BadVerify);
        }
        i := i + 1;
      }
      verdict := Accepted;
    }

    /** Collects the reachable producers by key. */
    method CollectOutputs() returns (verdict: Verdict, produced: map<Text, Node>)
      ensures verdict == Accepted || verdict == Rejected(DuplicateOutput)
      ensures verdict.Accepted? <==> UniqueMarked(plan.nodes, reachable, |plan.nodes|)
      ensures verdict.Accepted? ==> Collected(plan.nodes, reachable, |plan.nodes|, produced)
    {
      var nodes := plan.nodes;
      produced := map[];
      var i := 0;
      while i < |nodes|
        invariant 0 <= i <= |nodes|
        invariant Collected(nodes, reachable, i, produced)
        invariant UniqueMarked(nodes, reachable, i)
      {
        var node := nodes[i];
        if Producer(node, reachable) {
          if node.outputKey in produced {
            var k :| 0 <= k < i && Producer(nodes[k], reachable) && nodes[k].outputKey == node.outputKey;
            return Rejected(DuplicateOutput), produced;
          }
          CollectProducer(nodes, reachable, i, produced);
          produced := produced[node.outputKey := node];
        } else {
          SkipNode(nodes, reachable, i, produced);
        }
        i := i + 1;
      }
      verdict := Accepted;
    }

    /** Looks up every terminal key among the producers. */
    method CheckOutputs() returns (verdict: Verdict)
      requires forall id :: id in reachable <==> Reachable(NodeMap(plan.nodes), plan.roots, id)
      ensures verdict.Accepted? <==> UniqueProducers(plan) && TerminalKeysProduced(plan)
      ensures verdict in {Accepted, Rejected(DuplicateOutput), Rejected(UnproducedTerminalKey)}
    {
      var produced;
      verdict, produced := CollectOutputs();
      MarkedProducers(plan, reachable);
      if verdict.Rejected? {
        return;
      }
      verdict := CheckTerminalKeys(produced);
      CollectedTerminals(plan, reachable, produced);
    }

    method CheckTerminalKeys(produced: map<Text, Node>) returns (verdict: Verdict)
      requires forall key :: key in produced ==> ValueProducing(produced[key].kind)
      ensures verdict.Accepted? <==> forall k :: 0 <= k < |plan.terminalKeys| ==> plan.terminalKeys[k] in produced
      ensures verdict in {Accepted, Rejected(UnproducedTerminalKey)}
    {
      var i := 0;
      while i < |plan.terminalKeys|
        invariant 0 <= i <= |plan.terminalKeys|
        invariant forall k :: 0 <= k < i ==> plan.terminalKeys[k] in produced
      {
        if plan.terminalKeys[i] !in produced {
          return Rejected(UnproducedTerminalKey);
        }
        if produced[plan.terminalKeys[i]].kind == Verify {
          assert false;
          return Rejected(VerifyProducesTerminal);
        }
        i := i + 1;
      }
      verdict := Accepted;
    }

    /** Gathers the branch groups, then compares the dependencies within each. */
    method CheckGroups() returns (verdict: Verdict)
      ensures verdict.Accepted? <==> EqualFrontiers(plan.nodes)
      ensures verdict in {Accepted, Rejected(UnequalFrontier)}
    {
      var nodes := plan.nodes;
      var groups: map<Text, seq<Node>> := map[];
      var names: seq<Text> := [];
      var i := 0;
      while i < |nodes|
        invariant 0 <= i <= |nodes|
        invariant forall name :: name in groups <==> name in names
        invariant forall name :: name in groups ==> IsGroup(nodes[..i], name, groups[name])
        invariant forall k :: 0 <= k < i && nodes[k].branchGroup != [] ==>
          nodes[k].branchGroup in groups && nodes[k] in groups[nodes[k].branchGroup]
      {
        var node := nodes[i];
        assert nodes[..i + 1] == nodes[..i] + [node];
        if node.branchGroup != [] {
          var name := node.branchGroup;
          if name !in groups {
            names := names + [name];
            groups := groups[name := []];
          }
          groups := groups[name := groups[name] + [node]];
        }
        i := i + 1;
      }
      assert nodes[..|nodes|] == nodes;
      i := 0;
      while i < |names|
        invariant 0 <= i <= |names|
        invariant forall k :: 0 <= k < i ==> SameDependencies(groups[names[k]])
      {
        var signatures := set n | n in groups[names[i]] :: n.dependencies;
        SignatureCount(groups[names[i]]);
        if |signatures| > 1 {
          UnequalGroup(nodes, names[i], groups[names[i]]);
          return Rejected(UnequalFrontier);
        }
        i := i + 1;
      }
      forall a, b | 0 <= a < b < |nodes| && SameGroup(nodes[a], nodes[b])
        ensures nodes[a].dependencies == nodes[b].dependencies
      {
        var name := nodes[a].branchGroup;
        var k :| 0 <= k < |names| && names[k] == name;
        assert SameDependencies(groups[name]);
        assert nodes[a] in groups[name] && nodes[b] in groups[name];
      }
      verdict := Accepted;
    }

    /** The whole validation. It accepts exactly the valid plans. */
    method Validate() returns (verdict: Verdict)
      requires visiting == {} && visited == {} && reachable == {} && order == []
      modifies this
      ensures verdict.Accepted? <==> ValidPlan(plan)
      ensures verdict == Rejected(CyclicPlan) <==> WellReferenced(plan) && Cyclic(NodeMap(plan.nodes))
      ensures verdict != Rejected(VerifyProducesTerminal)
    {
      var g := NodeMap(plan.nodes);
      NodeMapSize(plan.nodes);
      if |g| != |plan.nodes| {
        return Rejected(DuplicateNode);
      }
      if exists k :: 0 <= k < |plan.roots| && plan.roots[k] !in g {
        return Rejected(UnknownRoot);
      }
      if exists k :: 0 <= k < |plan.verificationTerminals| && plan.verificationTerminals[k] !in g {
        return Rejected(UnknownTerminalNode);
      }
      verdict := CheckNodes(g);
      if verdict.Rejected? {
        return;
      }
      RulesCloseTheGraph(plan);
      var acyclic := CheckAcyclic(g);
      if !acyclic {
        return Rejected(CyclicPlan);
      }
      MarkRoots(g);
      verdict := CheckOutputs();
      if verdict.Rejected? {
        return;
      }
      verdict := CheckGroups();
      if verdict.Rejected? {
        return;
      }
      if plan.verificationRequired && !(exists i :: 0 <= i < |plan.nodes| && plan.nodes[i].kind == Verify) {
        return Rejected(MissingVerifyNode);
      }
    }
  }

  lemma RulesCloseTheGraph(plan: Plan)
    requires forall i :: 0 <= i < |plan.nodes| ==> NodeRule(plan, plan.nodes[i], NodeMap(plan.nodes))
    ensures Closed(NodeMap(plan.nodes))
  {
    var g := NodeMap(plan.nodes);
    forall id, k | id in g && 0 <= k < |g[id].dependencies| ensures g[id].dependencies[k] in g {
      NodeMapDomain(plan.nodes, id);
      var i :| 0 <= i < |plan.nodes| && plan.nodes[i] == g[id];
      assert NodeRule(plan, plan.nodes[i], g);
    }
  }

  predicate Producer(node: Node, marked: set<Text>) {
    node.id in marked && Strip(node.outputKey) != [] && ValueProducing(node.kind)
  }

  /** The map holds the producers among the first `n` nodes, each under its own key. */
  ghost predicate Collected(nodes: seq<Node>, marked: set<Text>, n: nat, produced: map<Text, Node>)
    requires n <= |nodes|
  {
    && (forall k :: 0 <= k < n && Producer(nodes[k], marked) ==>
          nodes[k].outputKey in produced && produced[nodes[k].outputKey] == nodes[k])
    && forall key :: key in produced ==>
         exists k :: 0 <= k < n && Producer(nodes[k], marked) && nodes[k].outputKey == key && produced[key] == nodes[k]
  }

  ghost predicate UniqueMarked(nodes: seq<Node>, marked: set<Text>, n: nat)
    requires n <= |nodes|
  {
    forall j, k :: 0 <= j < k < n && Producer(nodes[j], marked) && Producer(nodes[k], marked) ==>
      nodes[j].outputKey != nodes[k].outputKey
  }

  lemma CollectProducer(nodes: seq<Node>, marked: set<Text>, i: nat, produced: map<Text, Node>)
    requires i < |nodes| && Collected(nodes, marked, i, produced) && UniqueMarked(nodes, marked, i)
    requires Producer(nodes[i], marked) && nodes[i].outputKey !in produced
    ensures Collected(nodes, marked, i + 1, produced[nodes[i].outputKey := nodes[i]])
    ensures UniqueMarked(nodes, marked, i + 1)
  {
    UniqueSoFar(nodes, marked, i, produced);
    var more := produced[nodes[i].outputKey := nodes[i]];
    forall key | key in more
      ensures exists k :: 0 <= k < i + 1 && Producer(nodes[k], marked) && nodes[k].outputKey == key && more[key] == nodes[k]
    {
      if key != nodes[i].outputKey {
        var k :| 0 <= k < i && Producer(nodes[k], marked) && nodes[k].outputKey == key && produced[key] == nodes[k];
      }
    }
  }

  lemma UniqueSoFar(nodes: seq<Node>, marked: set<Text>, i: nat, produced: map<Text, Node>)
    requires i < |nodes| && Collected(nodes, marked, i, produced) && UniqueMarked(nodes, marked, i)
    requires nodes[i].outputKey !in produced
    ensures UniqueMarked(nodes, marked, i + 1)
  {
  }

  lemma SkipNode(nodes: seq<Node>, marked: set<Text>, i: nat, produced: map<Text, Node>)
    requires i < |nodes| && Collected(nodes, marked, i, produced) && UniqueMarked(nodes, marked, i)
    requires !Producer(nodes[i], marked)
    ensures Collected(nodes, marked, i + 1, produced) && UniqueMarked(nodes, marked, i + 1)
  {
    forall key | key in produced
      ensures exists k :: 0 <= k < i + 1 && Producer(nodes[k], marked) && nodes[k].outputKey == key && produced[key] == nodes[k]
    {
      var k :| 0 <= k < i && Producer(nodes[k], marked) && nodes[k].outputKey == key && produced[key] == nodes[k];
    }
  }

  lemma MarkedProducer(plan: Plan, marked: set<Text>, k: nat)
    requires forall id :: id in marked <==> Reachable(NodeMap(plan.nodes), plan.roots, id)
    requires k < |plan.nodes|
    ensures Producer(plan.nodes[k], marked) <==> Produces(plan, plan.nodes[k])
  {
  }

  lemma MarkedProducers(plan: Plan, marked: set<Text>)
    requires forall id :: id in marked <==> Reachable(NodeMap(plan.nodes), plan.roots, id)
    ensures UniqueMarked(plan.nodes, marked, |plan.nodes|) <==> UniqueProducers(plan)
  {
    forall k | 0 <= k < |plan.nodes|
      ensures Producer(plan.nodes[k], marked) <==> Produces(plan, plan.nodes[k])
    {
      MarkedProducer(plan, marked, k);
    }
  }

  lemma CollectedKey(plan: Plan, marked: set<Text>, produced: map<Text, Node>, key: Text)
    requires forall id :: id in marked <==> Reachable(NodeMap(plan.nodes), plan.roots, id)
    requires Collected(plan.nodes, marked, |plan.nodes|, produced)
    ensures KeyProduced(plan, key) <==> key in produced
  {
    if key in produced {
      var k :| 0 <= k < |plan.nodes| && Producer(plan.nodes[k], marked) && plan.nodes[k].outputKey == key;
      MarkedProducer(plan, marked, k);
    }
    if k :| 0 <= k < |plan.nodes| && Produces(plan, plan.nodes[k]) && plan.nodes[k].outputKey == key {
      MarkedProducer(plan, marked, k);
    }
  }

  lemma CollectedTerminals(plan: Plan, marked: set<Text>, produced: map<Text, Node>)
    requires forall id :: id in marked <==> Reachable(NodeMap(plan.nodes), plan.roots, id)
    requires Collected(plan.nodes, marked, |plan.nodes|, produced)
    ensures TerminalKeysProduced(plan) <==>
      forall k :: 0 <= k < |plan.terminalKeys| ==> plan.terminalKeys[k] in produced
  {
    forall k | 0 <= k < |plan.terminalKeys|
      ensures KeyProduced(plan, plan.terminalKeys[k]) <==> plan.terminalKeys[k] in produced
    {
      CollectedKey(plan, marked, produced, plan.terminalKeys[k]);
    }
  }

  predicate SameDependencies(nodes: seq<Node>) {
    forall i, j :: 0 <= i < j < |nodes| ==> nodes[i].dependencies == nodes[j].dependencies
  }

  lemma TwoMembers<T>(s: set<T>, a: T, b: T)
    requires a in s && b in s && a != b
    ensures |s| > 1
  {
    assert |s - {a}| == |s| - 1;
    assert b in s - {a};
  }

  lemma SignatureCount(nodes: seq<Node>)
    ensures |set n | n in nodes :: n.dependencies| > 1 <==> !SameDependencies(nodes)
  {
    var signatures := set n | n in nodes :: n.dependencies;
    if !SameDependencies(nodes) {
      var i, j :| 0 <= i < j < |nodes| && nodes[i].dependencies != nodes[j].dependencies;
      assert nodes[i] in nodes && nodes[j] in nodes;
      TwoMembers(signatures, nodes[i].dependencies, nodes[j].dependencies);
    } else if nodes != [] {
      forall s | s in signatures ensures s == nodes[0].dependencies {
        var n :| n in nodes && n.dependencies == s;
        var k :| 0 <= k < |nodes| && nodes[k] == n;
      }
      AtMostOne(signatures, nodes[0].dependencies);
    }
  }

  lemma AtMostOne<T>(s: set<T>, a: T)
    requires forall x :: x in s ==> x == a
    ensures |s| <= 1
  {
    assert s <= {a};
    if a in s {
      assert s == {a};
    } else {
      assert s == {};
    }
  }

  ghost predicate IsGroup(nodes: seq<Node>, name: Text, grouped: seq<Node>) {
    name != [] && forall n :: n in grouped ==> n.branchGroup == name && n in nodes
  }

  lemma UnequalGroup(nodes: seq<Node>, name: Text, grouped: seq<Node>)
    requires IsGroup(nodes, name, grouped)
    requires !SameDependencies(grouped)
    ensures !EqualFrontiers(nodes)
  {
    var a, b :| 0 <= a < b < |grouped| && grouped[a].dependencies != grouped[b].dependencies;
    var i :| 0 <= i < |nodes| && nodes[i] == grouped[a];
    var j :| 0 <= j < |nodes| && nodes[j] == grouped[b];
    assert SameGroup(nodes[i], nodes[j]) && SameGroup(nodes[j], nodes[i]);
  }

  // Marking

  /** A walk, possibly trivial, from `x` to `id`. */
  ghost predicate Leads(g: Graph, x: Text, id: Text) {
    exists p: seq<Text> :: Walk(g, p) && p[0] == x && p[|p| - 1] == id
  }

  ghost predicate DependentsMarked(nodes: seq<Node>, x: Text, marked: set<Text>) {
    forall k :: 0 <= k < |nodes| && x in nodes[k].dependencies ==> nodes[k].id in marked
  }

  lemma LeadsOn(g: Graph, x: Text, y: Text, id: Text)
    requires Leads(g, x, y) && y in g && id in g && id in g[y].dependencies
    ensures Leads(g, x, id)
  {
    var p: seq<Text> :| Walk(g, p) && p[0] == x && p[|p| - 1] == y;
    StackGrows(g, p, id);
    var q := p + [id];
    assert q[0] == x && q[|q| - 1] == id;
  }

  lemma {:induction false} WalkIsMarked(nodes: seq<Node>, g: Graph, p: seq<Text>, marked: set<Text>)
    requires g == NodeMap(nodes) && Walk(g, p) && p[|p| - 1] in marked
    requires forall x :: x in marked ==> DependentsMarked(nodes, x, marked)
    ensures p[0] in marked
    decreases |p|
  {
    if |p| > 1 {
      var q := p[1..];
      assert Walk(g, q) by {
        forall i | 0 <= i < |q| - 1 ensures q[i + 1] in g[q[i]].dependencies {
          assert p[i + 2] in g[p[i + 1]].dependencies;
        }
      }
      WalkIsMarked(nodes, g, q, marked);
      NodeMapDomain(nodes, p[0]);
      assert p[0 + 1] in g[p[0]].dependencies;
    }
  }

  lemma StackGrows(g: Graph, stack: seq<Text>, id: Text)
    requires id in g && (stack == [] || Walk(g, stack))
    requires stack != [] ==> id in g[stack[|stack| - 1]].dependencies
    ensures Walk(g, stack + [id])
  {
  }

  /** Meeting a node in progress closes a cycle. */
  lemma RepeatedOnStack(g: Graph, stack: seq<Text>, id: Text)
    requires Walk(g, stack) && id in g && id in stack
    requires id in g[stack[|stack| - 1]].dependencies
    ensures Cyclic(g)
  {
    var k :| 0 <= k < |stack| && stack[k] == id;
    var p := stack[k..] + [id];
    assert Walk(g, p) && p[0] == id && p[|p| - 1] == id;
    assert DependsOn(g, id, id);
  }

  lemma TopologicalSnoc(g: Graph, order: seq<Text>, id: Text)
    requires Topological(g, order) && id in g && id !in order
    requires forall k :: 0 <= k < |g[id].dependencies| ==> g[id].dependencies[k] in order
    ensures Topological(g, order + [id])
  {
    var longer := order + [id];
    forall i | 0 <= i < |longer|
      ensures longer[i] in g && forall d :: d in g[longer[i]].dependencies ==> d in longer[..i]
    {
      assert i < |order| ==> longer[..i] == order[..i];
      assert i == |order| ==> longer[..i] == order;
    }
  }

  /** Along a walk, positions in a topological order go down. */
  lemma {:induction false} WalkDescends(g: Graph, order: seq<Text>, p: seq<Text>, i: nat, j: nat)
    returns (a: nat, b: nat)
    requires Topological(g, order) && Walk(g, p) && i < j < |p| && p[i] in order
    ensures b < a < |order| && order[a] == p[i] && order[b] == p[j]
    decreases j - i
  {
    a :| 0 <= a < |order| && order[a] == p[i];
    assert p[i + 1] in order[..a];
    if i + 1 == j {
      b :| 0 <= b < a && order[b] == p[j];
    } else {
      var c: nat;
      c, b := WalkDescends(g, order, p, i + 1, j);
      var d: nat :| d < a && order[d] == p[i + 1];
      assert c == d;
    }
  }

  lemma TopologicalMeansAcyclic(g: Graph, order: seq<Text>)
    requires Topological(g, order) && forall id :: id in g ==> id in order
    ensures !Cyclic(g)
  {
    if Cyclic(g) {
      var a :| DependsOn(g, a, a);
      var p: seq<Text> :| Walk(g, p) && |p| >= 2 && p[0] == a && p[|p| - 1] == a;
      var i, j := WalkDescends(g, order, p, 0, |p| - 1);
      assert false;
    }
  }

  // What validity buys

  /** No member of a branch group depends on a member of the same group, at any distance. */
  lemma BranchMembersAreIndependent(plan: Plan, i: nat, j: nat)
    requires ValidPlan(plan) && i < |plan.nodes| && j < |plan.nodes|
    requires SameGroup(plan.nodes[i], plan.nodes[j])
    ensures !DependsOn(NodeMap(plan.nodes), plan.nodes[i].id, plan.nodes[j].id)
  {
    NodeMapContent(plan.nodes, i);
    NodeMapContent(plan.nodes, j);
    if i < j {
      EqualDependenciesIndependent(NodeMap(plan.nodes), plan.nodes[i].id, plan.nodes[j].id);
    } else if j < i {
      assert SameGroup(plan.nodes[j], plan.nodes[i]);
      EqualDependenciesIndependent(NodeMap(plan.nodes), plan.nodes[i].id, plan.nodes[j].id);
    }
  }

  /** Two nodes with the same dependencies cannot lie on one walk unless there is a cycle. */
  lemma EqualDependenciesIndependent(g: Graph, a: Text, b: Text)
    requires !Cyclic(g) && a in g && b in g && g[a].dependencies == g[b].dependencies
    ensures !DependsOn(g, a, b)
  {
    if DependsOn(g, a, b) {
      var p: seq<Text> :| Walk(g, p) && |p| >= 2 && p[0] == a && p[|p| - 1] == b;
      var q := p[0 := b];
      forall i | 0 <= i < |q| - 1 ensures q[i + 1] in g[q[i]].dependencies {
        assert p[i + 1] in g[p[i]].dependencies;
      }
      ClosedWalk(g, q);
    }
  }

  lemma ClosedWalk(g: Graph, q: seq<Text>)
    requires Walk(g, q) && |q| >= 2 && q[0] == q[|q| - 1]
    ensures Cyclic(g)
  {
    assert DependsOn(g, q[0], q[0]);
  }

  lemma {:induction false} GroupMembersExact(nodes: seq<Node>, group: Text, id: Text)
    ensures id in GroupMembers(nodes, group) <==>
      exists i :: 0 <= i < |nodes| && nodes[i].branchGroup == group && nodes[i].id == id
  {
    if nodes != [] {
      GroupMembersExact(nodes[1..], group, id);
      if i :| 0 <= i < |nodes| && nodes[i].branchGroup == group && nodes[i].id == id {
        if i > 0 {
          assert nodes[1..][i - 1] == nodes[i];
        }
      }
      if k :| 0 <= k < |nodes| - 1 && nodes[1..][k].branchGroup == group && nodes[1..][k].id == id {
        assert nodes[k + 1].branchGroup == group;
      }
    }
  }

  /** A merge node depends on all members of one nonempty group, on nothing else, and is not one of them. */
  lemma MergeConsumesItsGroup(plan: Plan, m: nat, id: Text)
    requires ValidPlan(plan) && m < |plan.nodes| && plan.nodes[m].kind == Merge
    ensures plan.nodes[m].dependencies != [] && plan.nodes[m].branchGroup == []
    ensures id in plan.nodes[m].dependencies <==>
      exists i :: 0 <= i < |plan.nodes| && plan.nodes[i].id == id
        && plan.nodes[i].branchGroup == Strip(plan.nodes[m].consumesGroup)
  {
    assert NodeRule(plan, plan.nodes[m], NodeMap(plan.nodes));
    GroupMembersExact(plan.nodes, Strip(plan.nodes[m].consumesGroup), id);
  }

  /** Every terminal key is produced by exactly one reachable node, and that is not a verify node. */
  lemma TerminalKeyHasOneProducer(plan: Plan, k: nat) returns (i: nat)
    requires ValidPlan(plan) && k < |plan.terminalKeys|
    ensures i < |plan.nodes| && Produces(plan, plan.nodes[i]) && plan.nodes[i].outputKey == plan.terminalKeys[k]
    ensures plan.nodes[i].kind != Verify
    ensures forall j :: 0 <= j < |plan.nodes| && Produces(plan, plan.nodes[j]) && j != i ==>
      plan.nodes[j].outputKey != plan.terminalKeys[k]
  {
    assert KeyProduced(plan, plan.terminalKeys[k]);
    i :| i < |plan.nodes| && Produces(plan, plan.nodes[i]) && plan.nodes[i].outputKey == plan.terminalKeys[k];
    forall j | 0 <= j < |plan.nodes| && Produces(plan, plan.nodes[j]) && j != i
      ensures plan.nodes[j].outputKey != plan.terminalKeys[k]
    {
      if j < i {
        assert plan.nodes[j].outputKey != plan.nodes[i].outputKey;
      }
    }
  }
}
