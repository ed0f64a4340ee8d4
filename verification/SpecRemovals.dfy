/**
 Removals never dangle: a removal of agents, tools or edges that passes its reference check always
 leaves a valid specification, and a removal of nodes does so exactly when the entry node stays.
 */
module SpecRemovals {
  import opened Wrappers
  import opened RuntimeSpec
  import opened SpecActions
  import opened SpecLineage

  lemma {:induction false} FilterKeepsUnique<T(!new)>(id: T -> string, keep: T -> bool, xs: seq<T>)
    requires Unique(id, xs)
    ensures Unique(id, Filter(keep, xs))
  {
    if xs != [] {
      var n := |xs| - 1;
      var kept := Filter(keep, xs[..n]);
      FilterKeepsUnique(id, keep, xs[..n]);
      forall i | 0 <= i < |kept| ensures id(kept[i]) != id(xs[n]) {
        assert kept[i] in xs[..n];
        var k :| 0 <= k < n && xs[..n][k] == kept[i];
        assert id(xs[k]) != id(xs[n]);
      }
    }
  }

  lemma FilterHas<T(!new)>(id: T -> string, keep: T -> bool, xs: seq<T>, key: string)
    requires Has(id, xs, key) && forall x :: x in xs && id(x) == key ==> keep(x)
    ensures Has(id, Filter(keep, xs), key)
  {
    var i :| 0 <= i < |xs| && id(xs[i]) == key;
    assert xs[i] in Filter(keep, xs);
    var k :| 0 <= k < |Filter(keep, xs)| && Filter(keep, xs)[k] == xs[i];
  }

  lemma HasMember<T>(id: T -> string, xs: seq<T>, key: string)
    ensures Has(id, xs, key) <==> exists x :: x in xs && id(x) == key
  {
    if x :| x in xs && id(x) == key {
      var i :| 0 <= i < |xs| && xs[i] == x;
    }
  }

  /** A filter keeps the order: its entries sit at rising positions of the list. */
  lemma {:induction false} FilterKeepsOrder<T(!new)>(keep: T -> bool, xs: seq<T>) returns (positions: seq<nat>)
    ensures |positions| == |Filter(keep, xs)|
    ensures forall i :: 0 <= i < |positions| ==> positions[i] < |xs| && Filter(keep, xs)[i] == xs[positions[i]]
    ensures forall i, j :: 0 <= i < j < |positions| ==> positions[i] < positions[j]
  {
    positions := [];
    if xs != [] {
      var n := |xs| - 1;
      positions := FilterKeepsOrder(keep, xs[..n]);
      if keep(xs[n]) {
        positions := positions + [n];
      }
    }
  }

  // Shrinking a specification

  /** Only entries were taken away. */
  ghost predicate Shrinks(t: Spec, s: Spec) {
    && (forall x :: x in t.agents ==> x in s.agents) && (forall x :: x in t.tools ==> x in s.tools)
    && (forall x :: x in t.graph.nodes ==> x in s.graph.nodes) && (forall x :: x in t.graph.edges ==> x in s.graph.edges)
    && t.graph == s.graph.(nodes := t.graph.nodes, edges := t.graph.edges, terminals := t.graph.terminals)
    && t == s.(agents := t.agents, tools := t.tools, graph := t.graph, parent := t.parent)
  }

  lemma SubsetIsFree<T>(barred: Field -> bool, dump: T -> Json, xs: seq<T>, ys: seq<T>)
    requires AllFree(barred, dump, xs) && forall y :: y in ys ==> y in xs
    ensures AllFree(barred, dump, ys)
  {
    forall i | 0 <= i < |ys| ensures Free(barred, dump(ys[i])) {
      assert ys[i] in xs;
    }
  }

  function GraphFields(g: Graph): (fields: seq<Field>)
    ensures |fields| == 5
  {
    [Field("entry_node", Str(g.entry)), Field("terminal_nodes", Strings(g.terminals)),
     Field("nodes", Listing(DumpNode, g.nodes)), Field("edges", Listing(DumpEdge, g.edges)),
     Field("metadata", g.metadata)]
  }

  lemma GraphKeysArePlain(g: Graph)
    ensures AllPlain(GraphFields(g))
  {
  }

  lemma FivePlainFields(barred: Field -> bool, f: seq<Field>)
    requires |f| == 5 && PermitsPlainKeys(barred) && AllPlain(f)
    ensures FreeFields(barred, f) <==>
      && Free(barred, f[0].value) && Free(barred, f[1].value) && Free(barred, f[2].value)
      && Free(barred, f[3].value) && Free(barred, f[4].value)
  {
    PlainFields(barred, f);
  }

  lemma StringsAreFree(barred: Field -> bool, xs: seq<string>)
    ensures Free(barred, Strings(xs))
  {
  }

  lemma FreeGraph(barred: Field -> bool, g: Graph)
    requires PermitsPlainKeys(barred)
    ensures Free(barred, DumpGraph(g)) <==>
      && AllFree(barred, DumpNode, g.nodes) && AllFree(barred, DumpEdge, g.edges)
      && Free(barred, g.metadata) && FreeFields(barred, g.rest)
  {
    FreeAppend(barred, GraphFields(g), g.rest);
    GraphKeysArePlain(g);
    FivePlainFields(barred, GraphFields(g));
    FreeListing(barred, DumpNode, g.nodes);
    FreeListing(barred, DumpEdge, g.edges);
    StringsAreFree(barred, g.terminals);
  }

  lemma ShrunkIsFree(barred: Field -> bool, s: Spec, t: Spec)
    requires PermitsPlainKeys(barred) && Shrinks(t, s) && Free(barred, Dump(s))
    ensures Free(barred, Dump(t))
  {
    FreeDump(barred, s);
    FreeDump(barred, t);
    FreeGraph(barred, s.graph);
    FreeGraph(barred, t.graph);
    SubsetIsFree(barred, DumpAgent, s.agents, t.agents);
    SubsetIsFree(barred, DumpTool, s.tools, t.tools);
    SubsetIsFree(barred, DumpNode, s.graph.nodes, t.graph.nodes);
    SubsetIsFree(barred, DumpEdge, s.graph.edges, t.graph.edges);
  }

  /** A shrunk specification is valid when its ids stay unique and what is left still resolves. */
  lemma ShrunkIsValid(s: Spec, t: Spec)
    requires ValidSpec(s) && Shrinks(t, s) && UniqueIds(t) && ValidGraph(t.graph) && ReferencesResolve(t)
    ensures ValidSpec(t)
  {
    ShrunkIsPublic(s, t);
    ShrunkAgentsAreProper(s.agents, t.agents);
  }

  lemma ShrunkIsPublic(s: Spec, t: Spec)
    requires Shrinks(t, s) && Public(Dump(s))
    ensures Public(Dump(t))
  {
    BarredPermitsPlainKeys();
    ShrunkIsFree(Barred, s, t);
  }

  lemma ShrunkAgentsAreProper(agents: seq<Agent>, fewer: seq<Agent>)
    requires ProperAgents(agents) && forall x :: x in fewer ==> x in agents
    ensures ProperAgents(fewer)
  {
    forall i | 0 <= i < |fewer| ensures ProperAgent(fewer[i]) {
      assert fewer[i] in agents;
      var k :| 0 <= k < |agents| && agents[k] == fewer[i];
    }
  }

  // Edges

  lemma FewerEdgesAreValid(g: Graph, keep: Edge -> bool)
    requires ValidGraph(g)
    ensures ValidGraph(g.(edges := Filter(keep, g.edges)))
  {
    var edges := Filter(keep, g.edges);
    forall i | 0 <= i < |edges| ensures Has(NodeId, g.nodes, edges[i].source) && Has(NodeId, g.nodes, edges[i].target) {
      assert edges[i] in g.edges;
      var k :| 0 <= k < |g.edges| && g.edges[k] == edges[i];
    }
  }

  lemma SameReferences(s: Spec, t: Spec)
    requires ReferencesResolve(s)
    requires t.agents == s.agents && t.tools == s.tools && t.models == s.models && t.graph.nodes == s.graph.nodes
    ensures ReferencesResolve(t)
  {
    forall i | 0 <= i < |t.agents| ensures AgentResolves(t, t.agents[i]) {
      assert AgentResolves(s, s.agents[i]);
    }
    forall i | 0 <= i < |t.graph.nodes| ensures NodeResolves(t, t.graph.nodes[i]) {
      assert NodeResolves(s, s.graph.nodes[i]);
    }
  }

  /** An action whose rewrite stays valid is applied. */
  lemma ValidRewriteApplies(s: Spec, a: Action)
    requires ValidSpec(s) && ProperAction(a) && Precheck(s, a.change).None? && Rewrite(s, a.change).Ok?
    ensures ApplyAction(s, a).Ok? <==> ValidSpec(Rewrite(s, a.change).value.0.(parent := Some(DigestOf(s))))
  {
  }

  /** Removing an edge always succeeds. */
  lemma RemoveEdgeSucceeds(s: Spec, a: Action)
    requires ValidSpec(s) && ProperAction(a) && a.change.RemoveEdge?
    ensures ApplyAction(s, a).Ok?
  {
    var keep := (e: Edge) => !Joins(e, a.change.source, a.change.target);
    FewerEdgesAreValid(s.graph, keep);
    var t := s.(graph := s.graph.(edges := Filter(keep, s.graph.edges)), parent := Some(DigestOf(s)));
    SameReferences(s, t);
    ShrunkIsValid(s, t);
    ValidRewriteApplies(s, a);
  }

  // Nodes

  lemma KeptNode(g: Graph, targets: seq<string>, key: string)
    requires Has(NodeId, g.nodes, key) && key !in targets
    ensures Has(NodeId, RemoveNodes(g, targets).nodes, key)
  {
    FilterHas(NodeId, (n: Node) => n.id !in targets, g.nodes, key);
  }

  lemma FewerNodesAreValid(g: Graph, targets: seq<string>)
    requires ValidGraph(g)
    ensures ValidGraph(RemoveNodes(g, targets)) <==> g.entry !in targets
  {
    var t := RemoveNodes(g, targets);
    FilterKeepsUnique(NodeId, (n: Node) => n.id !in targets, g.nodes);
    forall i | 0 <= i < |t.nodes| ensures ProperNode(t.nodes[i]) && t.nodes[i].id !in targets {
      assert t.nodes[i] in g.nodes;
      var k :| 0 <= k < |g.nodes| && g.nodes[k] == t.nodes[i];
    }
    forall i | 0 <= i < |t.terminals| ensures Has(NodeId, t.nodes, t.terminals[i]) {
      assert t.terminals[i] in g.terminals;
      var k :| 0 <= k < |g.terminals| && g.terminals[k] == t.terminals[i];
      KeptNode(g, targets, t.terminals[i]);
    }
    forall i | 0 <= i < |t.edges| ensures Has(NodeId, t.nodes, t.edges[i].source) && Has(NodeId, t.nodes, t.edges[i].target) {
      assert t.edges[i] in g.edges;
      var k :| 0 <= k < |g.edges| && g.edges[k] == t.edges[i];
      KeptNode(g, targets, t.edges[i].source);
      KeptNode(g, targets, t.edges[i].target);
    }
    if g.entry !in targets {
      KeptNode(g, targets, g.entry);
    }
  }

  lemma FewerNodesResolve(s: Spec, t: Spec)
    requires ReferencesResolve(s) && t.agents == s.agents && t.tools == s.tools && t.models == s.models
    requires forall x :: x in t.graph.nodes ==> x in s.graph.nodes
    ensures ReferencesResolve(t)
  {
    forall i | 0 <= i < |t.agents| ensures AgentResolves(t, t.agents[i]) {
      assert AgentResolves(s, s.agents[i]);
    }
    forall i | 0 <= i < |t.graph.nodes| ensures NodeResolves(t, t.graph.nodes[i]) {
      assert t.graph.nodes[i] in s.graph.nodes;
      var k :| 0 <= k < |s.graph.nodes| && s.graph.nodes[k] == t.graph.nodes[i];
      assert NodeResolves(s, s.graph.nodes[k]);
    }
  }

  /** Removing nodes succeeds exactly when the entry node is not among them. */
  lemma RemoveNodeExactly(s: Spec, a: Action)
    requires ValidSpec(s) && ProperAction(a) && a.change.RemoveNode? && Precheck(s, a.change).None?
    ensures ApplyAction(s, a).Ok? <==> s.graph.entry !in a.change.targets
  {
    var t := s.(graph := RemoveNodes(s.graph, a.change.targets), parent := Some(DigestOf(s)));
    FewerNodesAreValid(s.graph, a.change.targets);
    ValidRewriteApplies(s, a);
    if s.graph.entry !in a.change.targets {
      FewerNodesResolve(s, t);
      ShrunkIsValid(s, t);
    }
  }

  // Agents

  lemma FewerAgentsResolve(s: Spec, key: string)
    requires ReferencesResolve(s) && !AgentReferenced(s, [key])
    ensures ReferencesResolve(s.(agents := RemoveById(AgentId, s.agents, key)))
  {
    var t := s.(agents := RemoveById(AgentId, s.agents, key));
    forall i | 0 <= i < |t.agents| ensures AgentResolves(t, t.agents[i]) {
      assert t.agents[i] in s.agents;
      var k :| 0 <= k < |s.agents| && s.agents[k] == t.agents[i];
      assert AgentResolves(s, s.agents[k]);
    }
    forall i | 0 <= i < |t.graph.nodes| ensures NodeResolves(t, t.graph.nodes[i]) {
      assert NodeResolves(s, s.graph.nodes[i]);
      var agent := s.graph.nodes[i].agent;
      if agent.Some? && agent.value != "" {
        assert agent.value != key;
        FilterHas(AgentId, OtherThan(AgentId, key), s.agents, agent.value);
      }
    }
  }

  lemma FewerAgentsAreValid(s: Spec, key: string)
    requires ValidSpec(s) && !AgentReferenced(s, [key])
    ensures ValidSpec(s.(agents := RemoveById(AgentId, s.agents, key)))
  {
    FilterKeepsUnique(AgentId, OtherThan(AgentId, key), s.agents);
    FewerAgentsResolve(s, key);
    ShrunkIsValid(s, s.(agents := RemoveById(AgentId, s.agents, key)));
  }

  lemma {:induction false} RemoveAgentsSucceeds(s: Spec, targets: seq<string>)
    requires ValidSpec(s) && !AgentReferenced(s, targets)
    ensures RemoveAgents(s, targets).Ok? && ValidSpec(RemoveAgents(s, targets).value)
    decreases |targets|
  {
    if targets != [] {
      assert !AgentReferenced(s, [targets[0]]) && !AgentReferenced(s, targets[1..]) by {
        assert targets[0] in targets;
        assert forall x :: x in targets[1..] ==> x in targets;
      }
      FewerAgentsAreValid(s, targets[0]);
      RemoveAgentsSucceeds(s.(agents := RemoveById(AgentId, s.agents, targets[0])), targets[1..]);
    }
  }

  lemma AnotherParentIsValid(s: Spec, parent: SpecDigest)
    requires ValidSpec(s)
    ensures ValidSpec(s.(parent := Some(parent)))
  {
    var t := s.(parent := Some(parent));
    SameReferences(s, t);
    ShrunkIsValid(s, t);
  }

  /** Removing unreferenced agents always succeeds. */
  lemma RemoveAgentSucceeds(s: Spec, a: Action)
    requires ValidSpec(s) && ProperAction(a) && a.change.RemoveAgent? && Precheck(s, a.change).None?
    ensures ApplyAction(s, a).Ok?
  {
    RemoveAgentsSucceeds(s, a.change.targets);
    AnotherParentIsValid(RemoveAgents(s, a.change.targets).value, DigestOf(s));
    ValidRewriteApplies(s, a);
  }

  // Tools

  lemma {:induction false} RemovedTools(tools: seq<Tool>, targets: seq<string>)
    ensures forall t :: t in RemoveTools(tools, targets) <==> t in tools && t.id !in targets
    ensures Unique(ToolId, tools) ==> Unique(ToolId, RemoveTools(tools, targets))
    decreases |targets|
  {
    if targets != [] {
      RemovedTools(RemoveById(ToolId, tools, targets[0]), targets[1..]);
      if Unique(ToolId, tools) {
        FilterKeepsUnique(ToolId, OtherThan(ToolId, targets[0]), tools);
      }
    }
  }

  lemma KeptTool(tools: seq<Tool>, targets: seq<string>, key: string)
    requires Has(ToolId, tools, key) && key !in targets
    ensures Has(ToolId, RemoveTools(tools, targets), key)
  {
    RemovedTools(tools, targets);
    var i :| 0 <= i < |tools| && ToolId(tools[i]) == key;
    assert tools[i] in RemoveTools(tools, targets);
    HasMember(ToolId, RemoveTools(tools, targets), key);
  }

  lemma FewerToolsResolve(s: Spec, t: Spec, targets: seq<string>)
    requires ReferencesResolve(s) && !ToolReferenced(s, targets)
    requires t.tools == RemoveTools(s.tools, targets)
    requires t.agents == s.agents && t.models == s.models && t.graph.nodes == s.graph.nodes
    ensures ReferencesResolve(t)
  {
    forall i | 0 <= i < |t.agents| ensures AgentResolves(t, t.agents[i]) {
      assert AgentResolves(s, s.agents[i]) && !ToolsUsed(s.agents[i], targets);
      forall k | 0 <= k < |t.agents[i].tools| ensures Has(ToolId, t.tools, t.agents[i].tools[k]) {
        KeptTool(s.tools, targets, t.agents[i].tools[k]);
      }
    }
    forall i | 0 <= i < |t.graph.nodes| ensures NodeResolves(t, t.graph.nodes[i]) {
      assert NodeResolves(s, s.graph.nodes[i]);
      var tool := s.graph.nodes[i].tool;
      if tool.Some? && tool.value != "" {
        KeptTool(s.tools, targets, tool.value);
      }
    }
  }

  /** Removing unreferenced tools always succeeds. */
  lemma RemoveToolSucceeds(s: Spec, a: Action)
    requires ValidSpec(s) && ProperAction(a) && a.change.RemoveTool? && Precheck(s, a.change).None?
    ensures ApplyAction(s, a).Ok?
  {
    var t := s.(tools := RemoveTools(s.tools, a.change.targets), parent := Some(DigestOf(s)));
    RemovedTools(s.tools, a.change.targets);
    FewerToolsResolve(s, t, a.change.targets);
    ShrunkIsValid(s, t);
    ValidRewriteApplies(s, a);
  }
}
