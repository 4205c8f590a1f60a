/** The workflow graph: one phase step per run, routed by the snapshot it starts from. */
module WorkflowGraph {
  import opened Wrappers
  import opened WorkflowState
  import opened AgentFailures
  import opened FailureHandling
  import opened WorkflowContext
  import ParallelExecutor

  /** What can come out of a node other than a snapshot. */
  datatype Fault =
    | Refused(error: AppError)
    | FailureGroup(members: seq<Failure>)
    | CancelledRun

  /** A phase that runs agents concurrently: ingestion with five of them, forecasting with two. */
  datatype Stage<!Plan, !V> = Stage(
    phase: WorkflowPhase,
    next: WorkflowPhase,
    agents: seq<AgentName>,
    plans: map<string, Plan>,
    behaviour: Plan -> seq<ParallelExecutor.Event<V>>,
    policy: Policy)

  /** The agents' behaviour on every plan is an interleaving in which each of them ends. */
  ghost predicate Sound<Plan, V>(stage: Stage<Plan, V>) {
    forall id :: id in stage.plans ==>
      ParallelExecutor.Complete(|stage.agents|, stage.behaviour(stage.plans[id]))
  }

  // ---------- one phase ----------

  datatype Stepped<V> = Stepped(result: Result<(), Fault>, successes: map<string, seq<V>>)

  /** Resolve, execute, record. */
  function Step<Plan, V(==)>(stage: Stage<Plan, V>, successes: map<string, seq<V>>, workflowId: string): Stepped<V>
    requires Sound(stage)
  {
    if workflowId !in stage.plans then Stepped(Err(Refused(NotFound)), successes)
    else
      match ParallelExecutor.Execute(stage.agents, stage.behaviour(stage.plans[workflowId]))
      case FailureGroup(members) => Stepped(Err(Fault.FailureGroup(members)), successes)
      case Interrupted => Stepped(Err(CancelledRun), successes)
      case Success(values) =>
        var recorded := Record(successes, workflowId, values);
        Stepped(if recorded.result.Ok? then Ok(()) else Err(Refused(recorded.result.error)), recorded.successes)
  }

  datatype Visit<V> = Visit(result: Result<Snapshot, Fault>, successes: map<string, seq<V>>)

  function AsFault(r: Result<Snapshot, AppError>): Result<Snapshot, Fault> {
    if r.Ok? then Ok(r.value) else Err(Refused(r.error))
  }

  /** A phase node: run the step, and hand an exception group, but nothing else, to the failure handler. */
  function PhaseNode<Plan, V(==)>(stage: Stage<Plan, V>, successes: map<string, seq<V>>, state: Snapshot): Visit<V>
    requires Sound(stage)
  {
    var stepped := Step(stage, successes, state.workflowId);
    var result :=
      if stepped.result.Ok? then Ok(state)
      else if stepped.result.error.FailureGroup? then
        AsFault(Handle(stage.phase, stage.policy, state, stepped.result.error.members))
      else Err(stepped.result.error);
    Visit(result, stepped.successes)
  }

  class PhaseStep<Plan, V(==)> {
    const stage: Stage<Plan, V>
    const context: InMemoryWorkflowContext<Plan, seq<V>>

    constructor (stage: Stage<Plan, V>)
      requires Sound(stage)
      ensures this.stage == stage && Valid() && context.successes == map[] && fresh(context)
    {
      this.stage := stage;
      context := new InMemoryWorkflowContext(stage.plans);
    }

    ghost predicate Valid() {
      Sound(stage) && context.plans == stage.plans
    }

    method Run(workflowId: string) returns (r: Result<(), Fault>)
      requires Valid()
      modifies context
      ensures Stepped(r, context.successes) == Step(stage, old(context.successes), workflowId)
    {
      var plan := context.ResolvePlan(workflowId);
      if plan.Err? {
        return Err(Refused(plan.error));
      }
      var execution := ParallelExecutor.RunConcurrently(stage.agents, stage.behaviour(plan.value));
      match execution {
        case FailureGroup(members) => return Err(Fault.FailureGroup(members));
        case Interrupted => return Err(CancelledRun);
        case Success(values) =>
          var recorded := context.RecordSuccess(workflowId, values);
          if recorded.Err? {
            return Err(Refused(recorded.error));
          }
          return Ok(());
      }
    }

    method RunNode(state: Snapshot) returns (r: Result<Snapshot, Fault>)
      requires Valid()
      modifies context
      ensures Visit(r, context.successes) == PhaseNode(stage, old(context.successes), state)
    {
      var stepped := Run(state.workflowId);
      if stepped.Ok? {
        return Ok(state);
      }
      if stepped.error.FailureGroup? {
        return AsFault(Handle(stage.phase, stage.policy, state, stepped.error.members));
      }
      r := Err(stepped.error);
    }
  }

  // ---------- the graph ----------

  datatype Node =
    | WorkflowEntry
    | RegulatoryIntelligenceNode
    | ParallelIngestion
    | ParallelIngestionSuccessTransition
    | ForecastingNode
    | ForecastingSuccessTransition
    | End

  /** The graph is acyclic: every edge lowers the rank. */
  function Rank(node: Node): nat {
    match node
    case WorkflowEntry => 3
    case ParallelIngestion => 2
    case ForecastingNode => 2
    case RegulatoryIntelligenceNode => 1
    case ParallelIngestionSuccessTransition => 1
    case ForecastingSuccessTransition => 1
    case End => 0
  }

  /** The edge out of `node` for the snapshot it left. */
  function Route(node: Node, state: Snapshot): (next: Result<Node, AppError>)
    ensures next.Ok? ==> Rank(next.value) < Rank(node) || node.End?
  {
    match node
    case WorkflowEntry =>
      if At(state, Contract, Running) then Ok(RegulatoryIntelligenceNode)
      else if At(state, Ingestion, Running) then Ok(ParallelIngestion)
      else if At(state, Forecasting, Running) then Ok(ForecastingNode)
      else Err(InvalidRequest)
    case ParallelIngestion =>
      if At(state, Ingestion, Running) then Ok(ParallelIngestionSuccessTransition)
      else if At(state, Ingestion, Failed) then Ok(End)
      else Err(InvalidRequest)
    case ForecastingNode =>
      if At(state, Forecasting, Running) then Ok(ForecastingSuccessTransition)
      else if At(state, Forecasting, Failed) then Ok(End)
      else Err(InvalidRequest)
    case _ => Ok(End)
  }

  /** What has been recorded so far in each phase. */
  datatype Memory<V, W> = Memory(ingested: map<string, seq<V>>, forecasted: map<string, seq<W>>)

  datatype Graph<!P, !V, !Q, !W> = Graph(
    regulatory: Snapshot -> Result<(), Fault>,
    ingestion: Stage<P, V>,
    forecasting: Stage<Q, W>)

  ghost predicate Wired<P, V, Q, W>(graph: Graph<P, V, Q, W>) {
    && Sound(graph.ingestion) && Sound(graph.forecasting)
    && graph.ingestion.phase == Ingestion && graph.ingestion.next == Forecasting
    && graph.ingestion.agents == ParallelExecutor.INGESTION_AGENTS
    && graph.forecasting.phase == Forecasting && graph.forecasting.next == RiskAndBid
    && graph.forecasting.agents == ParallelExecutor.FORECASTING_AGENTS
  }

  datatype Effect<V, W> = Effect(result: Result<Snapshot, Fault>, memory: Memory<V, W>)

  function NodeBody<P, V(==), Q, W(==)>(graph: Graph<P, V, Q, W>, node: Node, memory: Memory<V, W>, state: Snapshot): Effect<V, W>
    requires Wired(graph)
  {
    match node
    case RegulatoryIntelligenceNode =>
      var outcome := graph.regulatory(state);
      Effect(if outcome.Ok? then Ok(state) else Err(outcome.error), memory)
    case ParallelIngestion =>
      var visit := PhaseNode(graph.ingestion, memory.ingested, state);
      Effect(visit.result, memory.(ingested := visit.successes))
    case ParallelIngestionSuccessTransition =>
      Effect(AsFault(Advance(Ingestion, Forecasting, state)), memory)
    case ForecastingNode =>
      var visit := PhaseNode(graph.forecasting, memory.forecasted, state);
      Effect(visit.result, memory.(forecasted := visit.successes))
    case ForecastingSuccessTransition =>
      Effect(AsFault(Advance(Forecasting, RiskAndBid, state)), memory)
    case _ => Effect(Ok(state), memory)
  }

  datatype Run<V, W> = Run(result: Result<Snapshot, Fault>, memory: Memory<V, W>, visited: seq<Node>)

  /** A whole run from `node` on. */
  function Walk<P, V(==), Q, W(==)>(graph: Graph<P, V, Q, W>, node: Node, memory: Memory<V, W>, state: Snapshot): Run<V, W>
    requires Wired(graph)
    decreases Rank(node)
  {
    if node.End? then Run(Ok(state), memory, [])
    else
      var effect := NodeBody(graph, node, memory, state);
      if effect.result.Err? then Run(effect.result, effect.memory, [node])
      else
        var next := Route(node, effect.result.value);
        if next.Err? then Run(Err(Refused(next.error)), effect.memory, [node])
        else
          var rest := Walk(graph, next.value, effect.memory, effect.result.value);
          rest.(visited := [node] + rest.visited)
  }

  /** `run` as the continuation of a run that has come through `visited`. */
  function After<V, W>(visited: seq<Node>, run: Run<V, W>): Run<V, W> {
    run.(visited := visited + run.visited)
  }

  lemma WalkStep<P, V, Q, W>(graph: Graph<P, V, Q, W>, node: Node, memory: Memory<V, W>, state: Snapshot, visited: seq<Node>)
    requires Wired(graph) && !node.End?
    ensures var effect := NodeBody(graph, node, memory, state);
            After(visited, Walk(graph, node, memory, state))
            == if effect.result.Err? then Run(effect.result, effect.memory, visited + [node])
               else
                 var next := Route(node, effect.result.value);
                 if next.Err? then Run(Err(Refused(next.error)), effect.memory, visited + [node])
                 else After(visited + [node], Walk(graph, next.value, effect.memory, effect.result.value))
  {
    hide NodeBody;
    var effect := NodeBody(graph, node, memory, state);
    if effect.result.Ok? {
      var next := Route(node, effect.result.value);
      if next.Ok? {
        var rest := Walk(graph, next.value, effect.memory, effect.result.value);
        assert visited + ([node] + rest.visited) == visited + [node] + rest.visited;
      }
    }
  }

  /** A run of the compiled graph. */
  function RunGraph<P, V(==), Q, W(==)>(graph: Graph<P, V, Q, W>, memory: Memory<V, W>, state: Snapshot): Run<V, W>
    requires Wired(graph)
  {
    Walk(graph, WorkflowEntry, memory, state)
  }

  class CompiledWorkflowGraph<P, V(==), Q, W(==)> {
    const graph: Graph<P, V, Q, W>
    const ingestion: PhaseStep<P, V>
    const forecasting: PhaseStep<Q, W>

    constructor (graph: Graph<P, V, Q, W>)
      requires Wired(graph)
      ensures this.graph == graph && Valid() && Contents() == Memory(map[], map[])
    {
      this.graph := graph;
      ingestion := new PhaseStep(graph.ingestion);
      forecasting := new PhaseStep(graph.forecasting);
    }

    ghost predicate Valid() {
      && Wired(graph)
      && ingestion.Valid() && ingestion.stage == graph.ingestion
      && forecasting.Valid() && forecasting.stage == graph.forecasting
      && (ingestion.context as object) != forecasting.context
    }

    ghost function Contents(): Memory<V, W>
      reads ingestion.context, forecasting.context
    {
      Memory(ingestion.context.successes, forecasting.context.successes)
    }

    method RunNode(node: Node, state: Snapshot) returns (r: Result<Snapshot, Fault>)
      requires Valid()
      modifies ingestion.context, forecasting.context
      ensures Effect(r, Contents()) == NodeBody(graph, node, old(Contents()), state)
    {
      match node {
        case RegulatoryIntelligenceNode =>
          var outcome := graph.regulatory(state);
          return if outcome.Ok? then Ok(state) else Err(outcome.error);
        case ParallelIngestion =>
          r := ingestion.RunNode(state);
        case ForecastingNode =>
          r := forecasting.RunNode(state);
        case ParallelIngestionSuccessTransition =>
          return AsFault(Advance(Ingestion, Forecasting, state));
        case ForecastingSuccessTransition =>
          return AsFault(Advance(Forecasting, RiskAndBid, state));
        case _ =>
          return Ok(state);
      }
    }

    method Invoke(initial: Snapshot) returns (r: Result<Snapshot, Fault>, visited: seq<Node>)
      requires Valid()
      modifies ingestion.context, forecasting.context
      ensures Run(r, Contents(), visited) == RunGraph(graph, old(Contents()), initial)
    {
      var node, state := WorkflowEntry, initial;
      visited := [];
      while !node.End?
        invariant After(visited, Walk(graph, node, Contents(), state)) == RunGraph(graph, old(Contents()), initial)
        decreases Rank(node)
      {
        hide NodeBody, Route, Walk, After, RunGraph;
        WalkStep(graph, node, Contents(), state, visited);
        visited := visited + [node];
        var effect := RunNode(node, state);
        if effect.Err? {
          return effect, visited;
        }
        state := effect.value;
        var next := Route(node, state);
        if next.Err? {
          return Err(Refused(next.error)), visited;
        }
        node := next.value;
      }
      r := Ok(state);
    }
  }
}
