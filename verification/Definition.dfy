/**
 The part of an IR definition that the decision core reads: nodes with their effects and
 budgets, regions with their loop declarations, and the edges that order nodes
 (crates/ir/src/{graph,node,effect,region,loop_region}.rs).
 */
module Definition {
  import opened Wrappers
  import opened Identifiers

  datatype Idempotency =
    | Idempotent
    | Keyed(keySource: string)
    | NonIdempotent

  datatype Reversibility =
    | Reversible(compensation: Identifier)
    | Irreversible

  datatype Effect = Effect(id: Identifier, idempotency: Idempotency, reversibility: Reversibility)

  /** `EffectNode` is the one kind the decision core treats specially. */
  datatype NodeKind = EffectNode | ComputeNode

  datatype Node = Node(id: Identifier, kind: NodeKind, effects: seq<Effect>, wallMs: nat)

  datatype FailureKind =
    | MissingEvidence | StaleReference | SchemaMismatch | ArithmeticMismatch | VerifierUnavailable
    | PolicyDenial | BudgetExhaustion | NonProgressing | UnsafeEffect | InterpretationResidual

  datatype Route =
    | Retry(node: Identifier, attempts: nat)
    | Repair(node: Identifier)
    | Escalate(to: Identifier)
    | Reject

  datatype RepairRoute = RepairRoute(failure: FailureKind, route: Route)

  datatype BudgetKind = Iterations | WallTime | Tokens | Cost | Effects

  datatype StopReason =
    | ConditionFalse
    | BudgetExhausted(budget: BudgetKind)
    | InvariantFailed(invariantId: Identifier)
    | NonProgress(measure: Identifier)
    | RepairExhausted(failure: FailureKind)

  datatype LoopBudget = LoopBudget(
    maxIterations: nat, wallMs: nat, tokens: nat, costMicroUnits: nat, effectCount: nat)

  datatype Timing = BeforeIteration | AfterIteration | Both

  datatype LoopInvariant = LoopInvariant(id: Identifier, evaluator: Identifier, port: string, timing: Timing)

  datatype Direction = StrictlyDecreasing | StrictlyIncreasing

  datatype ProgressMeasure = ProgressMeasure(
    id: Identifier, measuredBy: Identifier, port: string, direction: Direction)

  datatype Continuation = Continuation(evaluatedBy: Identifier, port: string)

  datatype LoopSpec = LoopSpec(
    continuation: Continuation,
    budget: LoopBudget,
    invariants: seq<LoopInvariant>,
    progress: Option<ProgressMeasure>,
    repairs: seq<RepairRoute>)

  datatype RegionKind = Plain | Loop(spec: LoopSpec)

  datatype Region = Region(
    id: Identifier, kind: RegionKind, entry: Identifier, exit: Identifier, nodes: set<Identifier>)

  /** A data or control edge, reduced to the nodes at its two ends. */
  datatype Edge = Edge(sources: set<Identifier>, targets: set<Identifier>)

  /** `nodes` and `regions` are in canonical order. */
  datatype Graph = Graph(nodes: seq<Node>, regions: seq<Region>, edges: seq<Edge>)
  {
    function NodeOf(id: Identifier): Option<Node> {
      FindNode(nodes, id)
    }

    function RegionOf(id: Identifier): Option<Region> {
      FindRegionOf(regions, id)
    }

    function EffectOf(node: Identifier, effect: Identifier): Option<Effect> {
      match NodeOf(node)
      case None => None
      case Some(declared) => FindEffect(declared.effects, effect)
    }

    /** Everything an edge into this node comes from, the node itself excepted. */
    function PredecessorsOf(node: Identifier): set<Identifier> {
      (set edge, source | edge in edges && node in edge.targets && source in edge.sources :: source) - {node}
    }
  }

  datatype Definition = Definition(graph: Graph, wallMs: nat)

  function FindNode(nodes: seq<Node>, id: Identifier): (found: Option<Node>)
    ensures found.Some? ==> found.value in nodes && found.value.id == id
    ensures found.None? ==> forall node :: node in nodes ==> node.id != id
  {
    if nodes == [] then None
    else if nodes[0].id == id then Some(nodes[0])
    else FindNode(nodes[1..], id)
  }

  function FindRegionOf(regions: seq<Region>, node: Identifier): (found: Option<Region>)
    ensures found.Some? ==> found.value in regions && node in found.value.nodes
    ensures found.None? ==> forall region :: region in regions ==> node !in region.nodes
  {
    if regions == [] then None
    else if node in regions[0].nodes then Some(regions[0])
    else FindRegionOf(regions[1..], node)
  }

  function FindRegion(regions: seq<Region>, id: Identifier): (found: Option<Region>)
    ensures found.Some? ==> found.value in regions && found.value.id == id
    ensures found.None? ==> forall region :: region in regions ==> region.id != id
  {
    if regions == [] then None
    else if regions[0].id == id then Some(regions[0])
    else FindRegion(regions[1..], id)
  }

  function FindEffect(effects: seq<Effect>, id: Identifier): (found: Option<Effect>)
    ensures found.Some? ==> found.value in effects && found.value.id == id
    ensures found.None? ==> forall effect :: effect in effects ==> effect.id != id
  {
    if effects == [] then None
    else if effects[0].id == id then Some(effects[0])
    else FindEffect(effects[1..], id)
  }

  /**
   What graph admission establishes and the results about finished runs rely on: regions are
   keyed by identifier, a region's exit and everything an edge names is a declared node, and a
   loop may go round at least once.
   */
  predicate Admitted(definition: Definition) {
    var graph := definition.graph;
    && (forall i, j :: 0 <= i < j < |graph.regions| ==> graph.regions[i].id != graph.regions[j].id)
    && (forall region :: region in graph.regions ==> graph.NodeOf(region.exit).Some?)
    && (forall edge, source :: edge in graph.edges && source in edge.sources ==> graph.NodeOf(source).Some?)
    && (forall region :: region in graph.regions && region.kind.Loop? ==>
          region.kind.spec.budget.maxIterations >= 1)
  }
}
