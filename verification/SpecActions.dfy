/**
 The sixteen rewrite actions on a runtime specification: what is checked before and after, and the
 chain of digests that a sequence of actions leaves behind.
 */
module SpecActions {
  import opened Wrappers
  import opened RuntimeSpec

  /** A patch of a record is any function on it; a patch as it was written is kept for its keys. */
  datatype Change =
    | AddAgent(agent: Agent)
    | UpdateAgent(targets: seq<string>, agentPatch: Agent -> Agent)
    | RemoveAgent(targets: seq<string>)
    | AddNode(node: Node)
    | UpdateNode(targets: seq<string>, nodePatch: Node -> Node)
    | RemoveNode(targets: seq<string>)
    | SetEdge(edge: Edge)
    | RemoveEdge(source: string, target: string)
    | AddTool(tool: Tool)
    | RemoveTool(targets: seq<string>)
    | SetToolPolicy(targets: seq<string>, toolPatch: Tool -> Tool)
    | SetModelPolicy(model: Model)
    | SetMemoryPolicy(memory: Json)
    | SetBudgetPolicy(budgetPatch: Json -> Json)
    | SetRoutingPolicy(targets: seq<string>, routingPatch: Json -> Json)
    | SetPrompt(targets: seq<string>, promptPatch: Json -> Json)

  /** An action; `appliedAt` is the clock when it is applied, which dates its history entry. */
  datatype Action = Action(
    id: string, change: Change, patch: Json, scope: seq<string>, expectedEffect: string, appliedAt: real)

  datatype ActionResult = ActionResult(actionId: string, parent: SpecDigest, child: SpecDigest, changed: bool)

  datatype SpecError =
    | InvalidParent | InvalidAction | MissingAgents | MissingTools | MissingNodes | StillReferenced | NoTarget
    | InvalidChild

  function TypeName(change: Change): string {
    match change
    case AddAgent(_) => "add_agent"
    case UpdateAgent(_, _) => "update_agent"
    case RemoveAgent(_) => "remove_agent"
    case AddNode(_) => "add_node"
    case UpdateNode(_, _) => "update_node"
    case RemoveNode(_) => "remove_node"
    case SetEdge(_) => "set_edge"
    case RemoveEdge(_, _) => "remove_edge"
    case AddTool(_) => "add_tool"
    case RemoveTool(_) => "remove_tool"
    case SetToolPolicy(_, _) => "set_tool_policy"
    case SetModelPolicy(_) => "set_model_policy"
    case SetMemoryPolicy(_) => "set_memory_policy"
    case SetBudgetPolicy(_) => "set_budget_policy"
    case SetRoutingPolicy(_, _) => "set_routing_policy"
    case SetPrompt(_, _) => "set_prompt"
  }

  // Lists keyed by id

  function Filter<T(!new)>(keep: T -> bool, xs: seq<T>): (r: seq<T>)
    ensures forall x :: x in r <==> x in xs && keep(x)
    ensures |r| <= |xs|
  {
    if xs == [] then []
    else if keep(xs[|xs| - 1]) then Filter(keep, xs[..|xs| - 1]) + [xs[|xs| - 1]]
    else Filter(keep, xs[..|xs| - 1])
  }

  function OtherThan<T>(id: T -> string, key: string): T -> bool {
    (x: T) => id(x) != key
  }

  function RemoveById<T(!new)>(id: T -> string, xs: seq<T>, key: string): seq<T> {
    Filter(OtherThan(id, key), xs)
  }

  function UpdateById<T>(id: T -> string, xs: seq<T>, key: string, patch: T -> T): (r: seq<T>)
    ensures |r| == |xs| && forall i :: 0 <= i < |xs| ==> r[i] == if id(xs[i]) == key then patch(xs[i]) else xs[i]
  {
    seq(|xs|, i requires 0 <= i < |xs| => if id(xs[i]) == key then patch(xs[i]) else xs[i])
  }

  /** The entry of the same id is replaced in its place; without one, the value goes last. */
  function ReplaceById<T(!new)>(id: T -> string, xs: seq<T>, value: T): (r: seq<T>)
    ensures forall x :: x in r <==> x == value || (x in xs && id(x) != id(value))
    ensures forall i :: 0 <= i < |xs| && id(xs[i]) != id(value) ==> i < |r| && r[i] == xs[i]
    ensures Unique(id, xs) ==> Unique(id, r)
  {
    var r := UpdateById(id, xs, id(value), (x: T) => value);
    if Has(id, xs, id(value)) then
      assert value in r by {
        var i :| 0 <= i < |xs| && id(xs[i]) == id(value);
        assert r[i] == value;
      }
      r
    else
      assert r == xs;
      r + [value]
  }

  /** The loop that builds the list, and whether it replaced anything. */
  method ReplaceByIdLoop<T(!new)>(id: T -> string, xs: seq<T>, value: T) returns (updated: seq<T>, replaced: bool)
    ensures updated == ReplaceById(id, xs, value)
    ensures replaced <==> Has(id, xs, id(value))
  {
    replaced, updated := false, [];
    for k := 0 to |xs|
      invariant |updated| == k
      invariant forall i :: 0 <= i < k ==> updated[i] == if id(xs[i]) == id(value) then value else xs[i]
      invariant replaced <==> exists i :: 0 <= i < k && id(xs[i]) == id(value)
    {
      if id(xs[k]) == id(value) {
        updated, replaced := updated + [value], true;
      } else {
        updated := updated + [xs[k]];
      }
    }
    assert updated == UpdateById(id, xs, id(value), (x: T) => value);
    if !replaced {
      updated := updated + [value];
    }
  }

  // Checks before the rewrite

  predicate AllKnown<T>(id: T -> string, xs: seq<T>, keys: seq<string>) {
    forall i :: 0 <= i < |keys| ==> Has(id, xs, keys[i])
  }

  predicate ProperAction(a: Action) {
    !Blank(a.id) && a.scope != [] && Public(a.patch)
  }

  predicate ToolsUsed(a: Agent, targets: seq<string>) {
    exists i :: 0 <= i < |a.tools| && a.tools[i] in targets
  }

  predicate AgentReferenced(s: Spec, targets: seq<string>) {
    exists i :: 0 <= i < |s.graph.nodes| && s.graph.nodes[i].agent.Some? && s.graph.nodes[i].agent.value in targets
  }

  predicate ToolReferenced(s: Spec, targets: seq<string>) {
    || (exists i :: 0 <= i < |s.graph.nodes| && s.graph.nodes[i].tool.Some? && s.graph.nodes[i].tool.value in targets)
    || exists i :: 0 <= i < |s.agents| && ToolsUsed(s.agents[i], targets)
  }

  /** The reference checks before an action, and what they refuse. */
  function Precheck(s: Spec, change: Change): Option<SpecError> {
    match change
    case UpdateAgent(targets, _) => if AllKnown(AgentId, s.agents, targets) then None else Some(MissingAgents)
    case SetPrompt(targets, _) => if AllKnown(AgentId, s.agents, targets) then None else Some(MissingAgents)
    case RemoveAgent(targets) =>
      if !AllKnown(AgentId, s.agents, targets) then Some(MissingAgents)
      else if AgentReferenced(s, targets) then Some(StillReferenced) else None
    case SetToolPolicy(targets, _) => if AllKnown(ToolId, s.tools, targets) then None else Some(MissingTools)
    case RemoveTool(targets) =>
      if !AllKnown(ToolId, s.tools, targets) then Some(MissingTools)
      else if ToolReferenced(s, targets) then Some(StillReferenced) else None
    case UpdateNode(targets, _) => if AllKnown(NodeId, s.graph.nodes, targets) then None else Some(MissingNodes)
    case RemoveNode(targets) => if AllKnown(NodeId, s.graph.nodes, targets) then None else Some(MissingNodes)
    case SetRoutingPolicy(targets, _) => if AllKnown(NodeId, s.graph.nodes, targets) then None else Some(MissingNodes)
    case _ => None
  }

  // The rewrite

  function RemoveNodes(g: Graph, targets: seq<string>): Graph {
    g.(nodes := Filter((n: Node) => n.id !in targets, g.nodes),
       edges := Filter((e: Edge) => e.source !in targets && e.target !in targets, g.edges),
       terminals := Filter((t: string) => t !in targets, g.terminals))
  }

  predicate Joins(e: Edge, source: string, target: string) {
    e.source == source && e.target == target
  }

  /** Agents are removed one by one, and the specification is validated before each removal. */
  function RemoveAgents(s: Spec, targets: seq<string>): Result<Spec, SpecError>
    decreases |targets|
  {
    if targets == [] then Ok(s)
    else if !ValidSpec(s) then Err(InvalidChild)
    else RemoveAgents(s.(agents := RemoveById(AgentId, s.agents, targets[0])), targets[1..])
  }

  function RemoveTools(tools: seq<Tool>, targets: seq<string>): seq<Tool>
    decreases |targets|
  {
    if targets == [] then tools else RemoveTools(RemoveById(ToolId, tools, targets[0]), targets[1..])
  }

  /** The rewritten specification and whether it changed, or why it could not be rewritten. */
  function Rewrite(s: Spec, change: Change): Result<(Spec, bool), SpecError> {
    match change
    case AddAgent(a) => Ok((s.(agents := ReplaceById(AgentId, s.agents, a)), true))
    case UpdateAgent(targets, patch) =>
      if targets == [] then Err(NoTarget)
      else Ok((s.(agents := UpdateById(AgentId, s.agents, targets[0], patch)), Has(AgentId, s.agents, targets[0])))
    case RemoveAgent(targets) =>
      var removed := RemoveAgents(s, targets);
      if removed.Err? then Err(removed.error) else Ok((removed.value, |removed.value.agents| != |s.agents|))
    case AddNode(n) => Ok((s.(graph := s.graph.(nodes := ReplaceById(NodeId, s.graph.nodes, n))), true))
    case UpdateNode(targets, patch) =>
      if targets == [] then Err(NoTarget)
      else Ok((s.(graph := s.graph.(nodes := UpdateById(NodeId, s.graph.nodes, targets[0], patch))),
               Has(NodeId, s.graph.nodes, targets[0])))
    case RemoveNode(targets) =>
      var graph := RemoveNodes(s.graph, targets);
      Ok((s.(graph := graph), |graph.nodes| != |s.graph.nodes|))
    case SetEdge(edge) =>
      var others := Filter((e: Edge) => !Joins(e, edge.source, edge.target), s.graph.edges);
      Ok((s.(graph := s.graph.(edges := others + [edge])), true))
    case RemoveEdge(source, target) =>
      var edges := Filter((e: Edge) => !Joins(e, source, target), s.graph.edges);
      Ok((s.(graph := s.graph.(edges := edges)), |edges| != |s.graph.edges|))
    case AddTool(t) => Ok((s.(tools := ReplaceById(ToolId, s.tools, t)), true))
    case RemoveTool(targets) =>
      var tools := RemoveTools(s.tools, targets);
      Ok((s.(tools := tools), |tools| != |s.tools|))
    case SetToolPolicy(targets, patch) =>
      if targets == [] then Err(NoTarget)
      else Ok((s.(tools := UpdateById(ToolId, s.tools, targets[0], patch)), Has(ToolId, s.tools, targets[0])))
    case SetModelPolicy(m) => Ok((s.(models := ReplaceById(ModelId, s.models, m)), true))
    case SetMemoryPolicy(memory) => Ok((s.(memory := memory), true))
    case SetBudgetPolicy(patch) => Ok((s.(execution := patch(s.execution)), true))
    case SetRoutingPolicy(_, patch) => Ok((s.(graph := s.graph.(metadata := patch(s.graph.metadata))), true))
    case SetPrompt(targets, patch) =>
      if targets == [] then Err(NoTarget)
      else
        var update := (a: Agent) => a.(prompt := patch(a.prompt));
        Ok((s.(agents := UpdateById(AgentId, s.agents, targets[0], update)), Has(AgentId, s.agents, targets[0])))
  }

  function RefMetadata(a: Action): Json {
    Obj([Field("scope", Strings(a.scope)), Field("expected_effect", Str(a.expectedEffect))])
  }

  function NewRef(a: Action, parent: SpecDigest, child: Option<SpecDigest>): ActionRef {
    ActionRef(a.id, TypeName(a.change), Some(parent), child, a.appliedAt, RefMetadata(a))
  }

  /** The new entry joins the history unfilled, the digest is taken, and then filled in. */
  function Record(s: Spec, a: Action, parent: SpecDigest): Spec {
    var unfilled := s.(history := s.history + [NewRef(a, parent, None)]);
    s.(history := s.history + [NewRef(a, parent, Some(DigestOf(unfilled)))])
  }

  function ApplyAction(s: Spec, a: Action): Result<(Spec, ActionResult), SpecError> {
    if !ValidSpec(s) then Err(InvalidParent)
    else if !ProperAction(a) then Err(InvalidAction)
    else
      var refused := Precheck(s, a.change);
      if refused.Some? then Err(refused.value)
      else
        var rewritten := Rewrite(s, a.change);
        if rewritten.Err? then Err(rewritten.error)
        else
          var child := rewritten.value.0.(parent := Some(DigestOf(s)));
          if !ValidSpec(child) then Err(InvalidChild)
          else
            var unfilled := child.(history := child.history + [NewRef(a, DigestOf(s), None)]);
            Ok((Record(child, a, DigestOf(s)), ActionResult(a.id, DigestOf(s), DigestOf(unfilled), rewritten.value.1)))
  }

  function Continue(before: Result<(Spec, seq<ActionResult>), SpecError>, a: Action)
    : Result<(Spec, seq<ActionResult>), SpecError>
  {
    if before.Err? then before
    else
      var next := ApplyAction(before.value.0, a);
      if next.Err? then Err(next.error) else Ok((next.value.0, before.value.1 + [next.value.1]))
  }

  /** A sequence of actions, each on the child of the one before. */
  function ApplyActions(s: Spec, actions: seq<Action>): Result<(Spec, seq<ActionResult>), SpecError> {
    if actions == [] then if ValidSpec(s) then Ok((s, [])) else Err(InvalidParent)
    else Continue(ApplyActions(s, actions[..|actions| - 1]), actions[|actions| - 1])
  }
}
