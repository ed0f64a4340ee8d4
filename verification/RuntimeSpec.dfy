/**
 The runtime specification: a document of agents, a graph, tools and model policies, what makes it
 valid, and the digest that names it.
 */
module RuntimeSpec {
  import opened Wrappers
  import opened Sorting

  /** A JSON document. Digests are symbolic: a digest is known by the payload it digests. */
  datatype Json =
    | Null
    | Boolean(b: bool)
    | Number(n: real)
    | Str(s: string)
    | Hash(digest: SpecDigest)
    | Arr(items: seq<Json>)
    | Obj(fields: seq<Field>)

  datatype Field = Field(key: string, value: Json)

  datatype SpecDigest = SpecDigest(payload: Json)

  datatype Agent = Agent(
    id: string, maxTurns: int, model: string, tools: seq<string>, prompt: Json, metadata: Json, rest: seq<Field>)

  datatype Node = Node(
    id: string, kind: string, agent: Option<string>, tool: Option<string>, metadata: Json, rest: seq<Field>)

  datatype Edge = Edge(source: string, target: string, metadata: Json, rest: seq<Field>)

  datatype Graph = Graph(
    entry: string, terminals: seq<string>, nodes: seq<Node>, edges: seq<Edge>, metadata: Json, rest: seq<Field>)

  datatype Tool = Tool(id: string, authority: string, metadata: Json, rest: seq<Field>)

  datatype Model = Model(id: string, metadata: Json, rest: seq<Field>)

  /** One entry of the mutation history; an empty digest is one not filled in yet. */
  datatype ActionRef = ActionRef(
    actionId: string, actionType: string, parent: Option<SpecDigest>, child: Option<SpecDigest>, createdAt: real,
    metadata: Json)

  datatype Spec = Spec(
    runtimeId: string, agents: seq<Agent>, graph: Graph, tools: seq<Tool>, models: seq<Model>,
    memory: Json, execution: Json, rest: seq<Field>, history: seq<ActionRef>, parent: Option<SpecDigest>,
    createdAt: real, metadata: Json)

  // The document as JSON

  function Strings(xs: seq<string>): Json {
    Arr(seq(|xs|, i requires 0 <= i < |xs| => Str(xs[i])))
  }

  function Listing<T>(dump: T -> Json, xs: seq<T>): Json {
    Arr(seq(|xs|, i requires 0 <= i < |xs| => dump(xs[i])))
  }

  /** A field that is left out when it holds nothing. */
  function Optional(key: string, value: Option<string>): seq<Field> {
    if value.Some? then [Field(key, Str(value.value))] else []
  }

  function DigestText(digest: Option<SpecDigest>): Json {
    if digest.Some? then Hash(digest.value) else Str("")
  }

  function DumpAgent(a: Agent): Json {
    Obj([Field("agent_id", Str(a.id)), Field("max_turns", Number(a.maxTurns as real)), Field("model_policy_id", Str(a.model)),
         Field("tool_ids", Strings(a.tools)), Field("prompt", a.prompt), Field("metadata", a.metadata)] + a.rest)
  }

  function DumpNode(n: Node): Json {
    Obj([Field("node_id", Str(n.id)), Field("node_type", Str(n.kind))] + Optional("agent_id", n.agent)
        + Optional("tool_id", n.tool) + [Field("metadata", n.metadata)] + n.rest)
  }

  function DumpEdge(e: Edge): Json {
    Obj([Field("source", Str(e.source)), Field("target", Str(e.target)), Field("metadata", e.metadata)] + e.rest)
  }

  function DumpGraph(g: Graph): Json {
    Obj([Field("entry_node", Str(g.entry)), Field("terminal_nodes", Strings(g.terminals)),
         Field("nodes", Listing(DumpNode, g.nodes)), Field("edges", Listing(DumpEdge, g.edges)),
         Field("metadata", g.metadata)] + g.rest)
  }

  function DumpTool(t: Tool): Json {
    Obj([Field("tool_id", Str(t.id)), Field("authority_boundary", Str(t.authority)), Field("metadata", t.metadata)] + t.rest)
  }

  function DumpModel(m: Model): Json {
    Obj([Field("model_policy_id", Str(m.id)), Field("metadata", m.metadata)] + m.rest)
  }

  function DumpRef(r: ActionRef): Json {
    Obj([Field("action_id", Str(r.actionId)), Field("action_type", Str(r.actionType)),
         Field("parent_spec_digest", DigestText(r.parent)), Field("child_spec_digest", DigestText(r.child)),
         Field("created_at", Number(r.createdAt)), Field("metadata", r.metadata)])
  }

  function ParentField(parent: Option<SpecDigest>): seq<Field> {
    if parent.Some? then [Field("parent_spec_digest", Hash(parent.value))] else []
  }

  function Dump(s: Spec): Json {
    Obj([Field("runtime_id", Str(s.runtimeId)), Field("agents", Listing(DumpAgent, s.agents)),
         Field("graph", DumpGraph(s.graph)), Field("tools", Listing(DumpTool, s.tools)),
         Field("models", Listing(DumpModel, s.models)), Field("memory", s.memory), Field("execution", s.execution),
         Field("mutation_history", Listing(DumpRef, s.history)), Field("created_at", Number(s.createdAt)),
         Field("metadata", s.metadata)] + ParentField(s.parent) + s.rest)
  }

  // The digest

  const DIGEST_EXCLUDED: set<string> :=
    {"created_at", "completed_at", "metadata", "parent_spec_digest", "child_spec_digest", "spec_digest"}

  /** The order of Python strings. */
  predicate KeyLeq(a: string, b: string) {
    a == [] || (b != [] && (a[0] < b[0] || (a[0] == b[0] && KeyLeq(a[1..], b[1..]))))
  }

  predicate ByKey(f: Field, g: Field) {
    KeyLeq(f.key, g.key)
  }

  /** The document with its keys sorted, without those that do not identify it, at any depth. */
  function DigestPayload(v: Json): Json {
    match v
    case Arr(items) => Arr(PayloadItems(items))
    case Obj(fields) => Obj(Sort(ByKey, PayloadFields(fields)))
    case _ => v
  }

  function PayloadItems(items: seq<Json>): seq<Json> {
    if items == [] then [] else [DigestPayload(items[0])] + PayloadItems(items[1..])
  }

  function PayloadFields(fields: seq<Field>): seq<Field> {
    if fields == [] then [] else PayloadField(fields[0]) + PayloadFields(fields[1..])
  }

  function PayloadField(f: Field): seq<Field> {
    if f.key in DIGEST_EXCLUDED then [] else [Field(f.key, DigestPayload(f.value))]
  }

  function DigestOf(s: Spec): SpecDigest {
    SpecDigest(DigestPayload(Dump(s)))
  }

  // Keys a document may not hold

  const FORBIDDEN_NAMES: seq<string> :=
    ["private_expected", "private_answer", "private_answer_ref", "hidden_tests", "private_rubric",
     "promotion_threshold", "sealed_inputs", "sealed_fixture_refs"]

  const FORBIDDEN_PREFIXES: seq<string> := ["private_", "sealed_", "hidden_", "oracle_private_"]

  predicate Among(key: string, names: seq<string>) {
    names != [] && (key == names[0] || Among(key, names[1..]))
  }

  predicate StartsWithAny(key: string, prefixes: seq<string>) {
    prefixes != [] && (prefixes[0] <= key || StartsWithAny(key, prefixes[1..]))
  }

  predicate ForbiddenKey(key: string) {
    Among(key, FORBIDDEN_NAMES) || StartsWithAny(key, FORBIDDEN_PREFIXES)
  }

  /** A field that no document may hold. */
  predicate Barred(f: Field) {
    ForbiddenKey(f.key) || (f.key == "authority_boundary" && f.value == Str("sealed_validator"))
  }

  /** No field of the document is barred, at any depth. */
  predicate Free(barred: Field -> bool, v: Json) {
    match v
    case Arr(items) => forall i :: 0 <= i < |items| ==> Free(barred, items[i])
    case Obj(fields) => FreeFields(barred, fields)
    case _ => true
  }

  predicate FreeFields(barred: Field -> bool, fields: seq<Field>) {
    forall i :: 0 <= i < |fields| ==> FreeField(barred, fields[i])
  }

  predicate FreeField(barred: Field -> bool, f: Field) {
    !barred(f) && Free(barred, f.value)
  }

  predicate Public(v: Json) {
    Free(Barred, v)
  }

  // Validity

  function AgentId(a: Agent): string {
    a.id
  }

  function NodeId(n: Node): string {
    n.id
  }

  function ToolId(t: Tool): string {
    t.id
  }

  function ModelId(m: Model): string {
    m.id
  }

  predicate Has<T>(id: T -> string, xs: seq<T>, key: string) {
    exists i :: 0 <= i < |xs| && id(xs[i]) == key
  }

  predicate Unique<T>(id: T -> string, xs: seq<T>) {
    forall i, j :: 0 <= i < j < |xs| ==> id(xs[i]) != id(xs[j])
  }

  predicate Blank(s: string) {
    forall i :: 0 <= i < |s| ==> s[i] in " \t\n\r"
  }

  predicate ProperAgent(a: Agent) {
    !Blank(a.id) && a.maxTurns >= 1
  }

  predicate ProperNode(n: Node) {
    && !Blank(n.id)
    && (n.kind == "agent" ==> n.agent.Some? && n.agent.value != "")
    && (n.kind == "tool" ==> n.tool.Some? && n.tool.value != "")
  }

  predicate ValidGraph(g: Graph) {
    && Unique(NodeId, g.nodes)
    && (forall i :: 0 <= i < |g.nodes| ==> ProperNode(g.nodes[i]))
    && Has(NodeId, g.nodes, g.entry)
    && (forall i :: 0 <= i < |g.terminals| ==> Has(NodeId, g.nodes, g.terminals[i]))
    && (forall i :: 0 <= i < |g.edges| ==> Has(NodeId, g.nodes, g.edges[i].source) && Has(NodeId, g.nodes, g.edges[i].target))
  }

  /** No reference, an empty one, or one that resolves. */
  predicate Resolves<T>(id: T -> string, xs: seq<T>, reference: Option<string>) {
    reference.None? || reference.value == "" || Has(id, xs, reference.value)
  }

  predicate AgentResolves(s: Spec, a: Agent) {
    Has(ModelId, s.models, a.model) && forall i :: 0 <= i < |a.tools| ==> Has(ToolId, s.tools, a.tools[i])
  }

  predicate NodeResolves(s: Spec, n: Node) {
    Resolves(AgentId, s.agents, n.agent) && Resolves(ToolId, s.tools, n.tool)
  }

  predicate ReferencesResolve(s: Spec) {
    && (forall i :: 0 <= i < |s.agents| ==> AgentResolves(s, s.agents[i]))
    && (forall i :: 0 <= i < |s.graph.nodes| ==> NodeResolves(s, s.graph.nodes[i]))
  }

  predicate ProperAgents(agents: seq<Agent>) {
    forall i :: 0 <= i < |agents| ==> ProperAgent(agents[i])
  }

  predicate UniqueIds(s: Spec) {
    Unique(AgentId, s.agents) && Unique(ToolId, s.tools) && Unique(ModelId, s.models)
  }

  predicate ValidSpec(s: Spec) {
    && UniqueIds(s) && ReferencesResolve(s) && ValidGraph(s.graph)
    && ProperAgents(s.agents) && Public(Dump(s))
  }

  // What the digest ignores, and what it does not

  lemma {:induction false} PayloadPointwise(a: seq<Json>)
    ensures |PayloadItems(a)| == |a| && forall i :: 0 <= i < |a| ==> PayloadItems(a)[i] == DigestPayload(a[i])
  {
    if a != [] {
      PayloadPointwise(a[1..]);
    }
  }

  lemma {:induction false} PayloadSame(a: seq<Field>, b: seq<Field>)
    requires |a| == |b| && forall i :: 0 <= i < |a| ==> PayloadField(a[i]) == PayloadField(b[i])
    ensures PayloadFields(a) == PayloadFields(b)
  {
    if a != [] {
      forall i | 0 <= i < |a[1..]| ensures PayloadField(a[1..][i]) == PayloadField(b[1..][i]) {
        assert PayloadField(a[i + 1]) == PayloadField(b[i + 1]);
      }
      PayloadSame(a[1..], b[1..]);
    }
  }

  /** Two history entries for the same action are the same to the digest, whatever digests they hold. */
  lemma RefPayload(a: ActionRef, b: ActionRef)
    requires a.actionId == b.actionId && a.actionType == b.actionType
    ensures DigestPayload(DumpRef(a)) == DigestPayload(DumpRef(b))
  {
    PayloadSame(DumpRef(a).fields, DumpRef(b).fields);
  }

  lemma HistoryPayload(a: seq<ActionRef>, b: seq<ActionRef>)
    requires |a| == |b|
    requires forall i :: 0 <= i < |a| ==> a[i].actionId == b[i].actionId && a[i].actionType == b[i].actionType
    ensures DigestPayload(Listing(DumpRef, a)) == DigestPayload(Listing(DumpRef, b))
  {
    var x, y := Listing(DumpRef, a).items, Listing(DumpRef, b).items;
    PayloadPointwise(x);
    PayloadPointwise(y);
    forall i | 0 <= i < |x| ensures PayloadItems(x)[i] == PayloadItems(y)[i] {
      RefPayload(a[i], b[i]);
    }
  }

  /** The digest sees of the history only which actions it lists. */
  lemma DigestIgnoresFillIns(s: Spec, history: seq<ActionRef>)
    requires |history| == |s.history|
    requires forall i :: 0 <= i < |history| ==>
      history[i].actionId == s.history[i].actionId && history[i].actionType == s.history[i].actionType
    ensures DigestOf(s.(history := history)) == DigestOf(s)
  {
    var t := s.(history := history);
    HistoryPayload(history, s.history);
    PayloadSame(Dump(t).fields, Dump(s).fields);
  }

  /** The first value under a key. */
  function Lookup(fields: seq<Field>, key: string): Option<Json> {
    if fields == [] then None
    else if fields[0].key == key then Some(fields[0].value)
    else Lookup(fields[1..], key)
  }

  lemma {:induction false} LookupPayload(fields: seq<Field>, key: string)
    requires key !in DIGEST_EXCLUDED
    ensures Lookup(PayloadFields(fields), key)
      == if Lookup(fields, key).Some? then Some(DigestPayload(Lookup(fields, key).value)) else None
  {
    if fields != [] {
      LookupPayload(fields[1..], key);
      var first, rest := PayloadField(fields[0]), PayloadFields(fields[1..]);
      assert first == [] ==> first + rest == rest;
      assert first != [] ==> (first + rest)[0] == first[0] && (first + rest)[1..] == rest;
    }
  }

  lemma {:induction false} KeyLeqReflexive(key: string)
    ensures KeyLeq(key, key)
  {
    if key != [] {
      KeyLeqReflexive(key[1..]);
    }
  }

  lemma {:induction false} LookupInserted(f: Field, fields: seq<Field>, key: string)
    ensures Lookup(Insert(ByKey, f, fields), key) == if f.key == key then Some(f.value) else Lookup(fields, key)
  {
    if fields != [] && !ByKey(f, fields[0]) {
      KeyLeqReflexive(f.key);
      LookupInserted(f, fields[1..], key);
    }
  }

  /** Sorting is stable, so the first value under a key stays the first. */
  lemma {:induction false} LookupSorted(fields: seq<Field>, key: string)
    ensures Lookup(Sort(ByKey, fields), key) == Lookup(fields, key)
  {
    if fields != [] {
      LookupSorted(fields[1..], key);
      LookupInserted(fields[0], Sort(ByKey, fields[1..]), key);
    }
  }

  lemma LookupHistory(s: Spec)
    ensures Lookup(Dump(s).fields, "mutation_history") == Some(Listing(DumpRef, s.history))
  {
    var fields := Dump(s).fields;
    assert fields[7].key == "mutation_history";
    LookupAt(fields, "mutation_history", 7);
  }

  lemma {:induction false} LookupAt(fields: seq<Field>, key: string, k: nat)
    requires k < |fields| && fields[k].key == key && forall i :: 0 <= i < k ==> fields[i].key != key
    ensures Lookup(fields, key) == Some(fields[k].value)
  {
    if k > 0 {
      assert forall i :: 0 <= i < k - 1 ==> fields[1..][i] == fields[i + 1];
      LookupAt(fields[1..], key, k - 1);
    }
  }

  /** Specs with histories of different lengths have different digests. */
  lemma DigestShowsHistoryLength(s: Spec, t: Spec)
    requires DigestOf(s) == DigestOf(t)
    ensures |s.history| == |t.history|
  {
    LookupHistory(s);
    LookupHistory(t);
    LookupPayload(Dump(s).fields, "mutation_history");
    LookupPayload(Dump(t).fields, "mutation_history");
    LookupSorted(PayloadFields(Dump(s).fields), "mutation_history");
    LookupSorted(PayloadFields(Dump(t).fields), "mutation_history");
    PayloadPointwise(Listing(DumpRef, s.history).items);
    PayloadPointwise(Listing(DumpRef, t.history).items);
  }
}
