/** Whole runs of the workflow graph: how they can end, what they record, and what no run changes. */
module WorkflowRuns {
  import opened Wrappers
  import opened WorkflowState
  import opened AgentFailures
  import opened FailureHandling
  import opened WorkflowContext
  import opened ParallelExecutor
  import opened WorkflowGraph

  /** The agents run for `workflowId` end as `endings`, in some order. */
  ghost predicate EndsAs<P, V>(stage: Stage<P, V>, workflowId: string, endings: seq<Ending<V>>) {
    && workflowId in stage.plans && |endings| == |stage.agents|
    && EndedAs(stage.behaviour(stage.plans[workflowId]), endings)
  }

  ghost predicate AnyCancelled<V>(endings: seq<Ending<V>>) {
    exists ending :: ending in endings && ending.Cancelled?
  }

  /** The results, in branch order. */
  function Values<V>(endings: seq<Ending<V>>): seq<V>
    requires forall ending :: ending in endings ==> ending.Returned?
  {
    seq(|endings|, i requires 0 <= i < |endings| => endings[i].value)
  }

  // ---------- one phase, told only how each branch ended ----------

  ghost function FailedVisit<P, V>(stage: Stage<P, V>, exceptions: seq<Failure>, before: map<string, seq<V>>,
                                   state: Snapshot): Visit<V> {
    if SingleFailure(exceptions) && stage.policy(SingleContext(stage.phase, exceptions)) == Fail
    then Visit(Ok(state.(status := Failed)), before)
    else Visit(Err(Refused(InvalidRequest)), before)
  }

  ghost function RecordedVisit<V>(before: map<string, seq<V>>, state: Snapshot, values: seq<V>): Visit<V> {
    var recorded := Record(before, state.workflowId, values);
    Visit(if recorded.result.Ok? then Ok(state) else Err(Refused(Conflict)), recorded.successes)
  }

  ghost function Settle<P, V>(stage: Stage<P, V>, endings: seq<Ending<V>>, before: map<string, seq<V>>, state: Snapshot): Visit<V>
    requires |endings| == |stage.agents|
  {
    var exceptions := Exceptions(stage.agents, AllFinished(endings));
    if exceptions != [] then FailedVisit(stage, exceptions, before, state)
    else if AnyCancelled(endings) then Visit(Err(CancelledRun), before)
    else
      ExceptionsMeaning(stage.agents, endings);
      RecordedVisit(before, state, Values(endings))
  }

  lemma HandleGroup<P, V>(stage: Stage<P, V>, before: map<string, seq<V>>, state: Snapshot, members: seq<Failure>,
                          exceptions: seq<Failure>)
    requires At(state, stage.phase, WorkflowStatus.Running) && multiset(members) == multiset(exceptions)
    ensures Visit(AsFault(Handle(stage.phase, stage.policy, state, members)), before) == FailedVisit(stage, exceptions, before, state)
  {
    HandleIgnoresOrder(stage.phase, stage.policy, state, members, exceptions);
    HandleMeaning(stage.phase, stage.policy, state, exceptions);
  }

  /** What the phase node makes of each way the execution can end. */
  lemma NodeOfExecution<P, V>(stage: Stage<P, V>, before: map<string, seq<V>>, state: Snapshot, execution: Execution<V>)
    requires Sound(stage) && state.workflowId in stage.plans
    requires execution == Execute(stage.agents, stage.behaviour(stage.plans[state.workflowId]))
    ensures PhaseNode(stage, before, state)
            == match execution
               case FailureGroup(members) => Visit(AsFault(Handle(stage.phase, stage.policy, state, members)), before)
               case Interrupted => Visit(Err(CancelledRun), before)
               case Success(values) => RecordedVisit(before, state, values)
  {
    hide Execute, Handle, Sound;
  }

  /** A phase's result and what it records depend only on how each branch ended, not on the interleaving. */
  lemma PhaseSettles<P, V>(stage: Stage<P, V>, endings: seq<Ending<V>>, before: map<string, seq<V>>, state: Snapshot)
    requires Sound(stage) && At(state, stage.phase, WorkflowStatus.Running) && EndsAs(stage, state.workflowId, endings)
    ensures PhaseNode(stage, before, state) == Settle(stage, endings, before, state)
  {
    var schedule := stage.behaviour(stage.plans[state.workflowId]);
    var execution := Execute(stage.agents, schedule);
    ExecutionMeaning(stage.agents, schedule, endings);
    ExceptionsMeaning(stage.agents, endings);
    NodeOfExecution(stage, before, state, execution);
    hide Execute, PhaseNode, Handle, Exceptions, AllFinished, FailedVisit, RecordedVisit, Sound, EndsAs, Values, At;
    if execution.FailureGroup? {
      HandleGroup(stage, before, state, execution.members, Exceptions(stage.agents, AllFinished(endings)));
    } else if execution.Success? {
      ValuesOfReturned(endings, execution.values);
    }
  }

  lemma ValuesOfReturned<V>(endings: seq<Ending<V>>, values: seq<V>)
    requires endings == Map(value => Returned(value), values)
    ensures forall ending :: ending in endings ==> ending.Returned?
    ensures Values(endings) == values
  {
  }

  // ---------- ordinary failures under the policy in force ----------

  /** How a phase concludes: two or more failures, one failure, a cancellation, or every result. */
  ghost predicate Concludes<P, V>(stage: Stage<P, V>, endings: seq<Ending<V>>, state: Snapshot,
                                  before: map<string, seq<V>>, result: Result<Snapshot, Fault>, after: map<string, seq<V>>)
    requires |endings| == |stage.agents|
  {
    var raising := Raising(stage.agents, endings);
    if |raising| >= 2 then result == Err(Refused(InvalidRequest)) && after == before
    else if |raising| == 1 then result == Ok(state.(status := Failed)) && after == before
    else if AnyCancelled(endings) then result == Err(CancelledRun) && after == before
    else
      && (forall ending :: ending in endings ==> ending.Returned?)
      && var id, values := state.workflowId, Values(endings);
         if id in before && before[id] != values then result == Err(Refused(Conflict)) && after == before
         else result == Ok(state.(phase := stage.next)) && after == before[id := values]
  }

  lemma SettleOrdinary<P, V>(stage: Stage<P, V>, endings: seq<Ending<V>>, before: map<string, seq<V>>, state: Snapshot)
    requires |endings| == |stage.agents| && Ordinary(endings) && stage.policy == InitialPolicy
    requires At(state, stage.phase, WorkflowStatus.Running)
    ensures var visit := Settle(stage, endings, before, state);
            var result := if visit.result == Ok(state) then Ok(state.(phase := stage.next)) else visit.result;
            Concludes(stage, endings, state, before, result, visit.successes)
  {
    var raising := Raising(stage.agents, endings);
    OrdinaryExceptions(stage.agents, endings);
    SingleRaise(raising);
    hide *;
    if raising == [] {
      SettleQuiet(stage, endings, before, state);
    } else {
      SettleRaising(stage, endings, before, state);
    }
  }

  lemma SettleRaising<P, V>(stage: Stage<P, V>, endings: seq<Ending<V>>, before: map<string, seq<V>>, state: Snapshot)
    requires |endings| == |stage.agents| && stage.policy == InitialPolicy
    requires At(state, stage.phase, WorkflowStatus.Running) && Raising(stage.agents, endings) != []
    requires Exceptions(stage.agents, AllFinished(endings)) == Map(AsLeaf, Raising(stage.agents, endings))
    requires SingleFailure(Map(AsLeaf, Raising(stage.agents, endings))) <==> |Raising(stage.agents, endings)| == 1
    ensures var visit := Settle(stage, endings, before, state);
            var result := if visit.result == Ok(state) then Ok(state.(phase := stage.next)) else visit.result;
            Concludes(stage, endings, state, before, result, visit.successes)
  {
    hide Exceptions, Raising, AllFinished, SingleFailure, SingleContext, RecordedVisit, Values, AnyCancelled;
    assert |Map(AsLeaf, Raising(stage.agents, endings))| == |Raising(stage.agents, endings)|;
    assert state.(status := Failed) != state;
  }

  lemma RaisingNone<V>(agents: seq<AgentName>, endings: seq<Ending<V>>)
    requires |agents| == |endings| && Ordinary(endings)
    ensures (forall ending :: ending in endings ==> ending.Returned?) <==>
            Raising(agents, endings) == [] && !AnyCancelled(endings)
  {
    OrdinaryExceptions(agents, endings);
    ExceptionsMeaning(agents, endings);
    assert |Map(AsLeaf, Raising(agents, endings))| == |Raising(agents, endings)|;
    hide Exceptions, Raising, AllFinished;
    if Raising(agents, endings) == [] && !AnyCancelled(endings) {
      forall ending | ending in endings ensures ending.Returned? {
        assert !Fails(ending) && !ending.Cancelled?;
      }
    }
  }

  lemma SettleQuiet<P, V>(stage: Stage<P, V>, endings: seq<Ending<V>>, before: map<string, seq<V>>, state: Snapshot)
    requires |endings| == |stage.agents| && Ordinary(endings) && Raising(stage.agents, endings) == []
    requires Exceptions(stage.agents, AllFinished(endings)) == Map(AsLeaf, Raising(stage.agents, endings))
    requires At(state, stage.phase, WorkflowStatus.Running)
    ensures var visit := Settle(stage, endings, before, state);
            var result := if visit.result == Ok(state) then Ok(state.(phase := stage.next)) else visit.result;
            Concludes(stage, endings, state, before, result, visit.successes)
  {
    QuietSettles(stage, endings, before, state);
    hide *;
    if AnyCancelled(endings) {
      CancelledConcludes(stage, endings, before, state);
    } else {
      RecordedConcludes(stage, endings, before, state);
    }
  }

  lemma CancelledConcludes<P, V>(stage: Stage<P, V>, endings: seq<Ending<V>>, before: map<string, seq<V>>, state: Snapshot)
    requires |endings| == |stage.agents| && Raising(stage.agents, endings) == [] && AnyCancelled(endings)
    ensures Concludes(stage, endings, state, before, Err(CancelledRun), before)
  {
    hide Raising, AnyCancelled;
  }

  lemma RecordedConcludes<P, V>(stage: Stage<P, V>, endings: seq<Ending<V>>, before: map<string, seq<V>>, state: Snapshot)
    requires |endings| == |stage.agents| && Raising(stage.agents, endings) == [] && !AnyCancelled(endings)
    requires forall ending :: ending in endings ==> ending.Returned?
    requires At(state, stage.phase, WorkflowStatus.Running)
    ensures var visit := RecordedVisit(before, state, Values(endings));
            var result := if visit.result == Ok(state) then Ok(state.(phase := stage.next)) else visit.result;
            Concludes(stage, endings, state, before, result, visit.successes)
  {
    hide Raising, AnyCancelled, Values;
    var values := Values(endings);
    if state.workflowId in before && before[state.workflowId] == values {
      assert before[state.workflowId := values] == before;
    }
  }

  lemma QuietSettles<P, V>(stage: Stage<P, V>, endings: seq<Ending<V>>, before: map<string, seq<V>>, state: Snapshot)
    requires |endings| == |stage.agents| && Ordinary(endings) && Raising(stage.agents, endings) == []
    requires Exceptions(stage.agents, AllFinished(endings)) == Map(AsLeaf, Raising(stage.agents, endings))
    ensures AnyCancelled(endings) ==> Settle(stage, endings, before, state) == Visit(Err(CancelledRun), before)
    ensures !AnyCancelled(endings) ==>
              && (forall ending :: ending in endings ==> ending.Returned?)
              && Settle(stage, endings, before, state) == RecordedVisit(before, state, Values(endings))
  {
    assert Exceptions(stage.agents, AllFinished(endings)) == [];
    RaisingNone(stage.agents, endings);
    hide Exceptions, Raising, AllFinished, FailedVisit, RecordedVisit, Values, AnyCancelled, Map, AsLeaf, Ordinary;
  }

  /** A group made of plain attributed failures is a single failure just when it has one member. */
  lemma SingleRaise(raising: seq<AgentFailure>)
    ensures SingleFailure(Map(AsLeaf, raising)) <==> |raising| == 1
  {
    LeavesOfLeaves(raising);
    hide Leaves;
    assert Leaves(Map(AsLeaf, raising)) == Map(AsLeaf, raising);
  }

  /** When exactly one branch raises, the policy is told that branch's agent and the code of its cause. */
  lemma PolicyIsTold<P, V>(stage: Stage<P, V>, workflowId: string, endings: seq<Ending<V>>, failure: AgentFailure)
    requires Sound(stage) && EndsAs(stage, workflowId, endings) && Ordinary(endings)
    requires Raising(stage.agents, endings) == [failure]
    ensures var execution := Execute(stage.agents, stage.behaviour(stage.plans[workflowId]));
            && execution.FailureGroup?
            && Prepare(stage.phase, execution.members)
               == Ok(FailurePolicyContext(stage.phase, ClassifyOne(stage.phase, failure).code, ATTEMPT_NUMBER, failure.agent))
  {
    RaisingMeaning(stage.agents, endings, failure);
    var i :| 0 <= i < |endings| && endings[i] == Raised(failure.cause);
    assert endings[i] in endings;
    RaisingBranchesExtracted(stage.agents, stage.behaviour(stage.plans[workflowId]), endings);
    var members := Execute(stage.agents, stage.behaviour(stage.plans[workflowId])).members;
    SingletonBag([failure], Extract(members).value);
  }

  // ---------- runs from each entry ----------

  /** The rest of a run whose phase node has been left with `result`. */
  ghost function Continue<V, W>(node: Node, transition: Node, state: Snapshot, next: WorkflowPhase,
                                result: Result<Snapshot, Fault>, memory: Memory<V, W>): Run<V, W>
  {
    if result == Ok(state) then Run(Ok(state.(phase := next)), memory, [WorkflowEntry, node, transition])
    else Run(result, memory, [WorkflowEntry, node])
  }

  lemma AfterIngestion<P, V, Q, W>(graph: Graph<P, V, Q, W>, memory: Memory<V, W>, state: Snapshot)
    requires Wired(graph) && At(state, Ingestion, WorkflowStatus.Running)
    requires var result := PhaseNode(graph.ingestion, memory.ingested, state).result;
             result.Ok? ==> result.value in {state, state.(status := Failed)}
    ensures var visit := PhaseNode(graph.ingestion, memory.ingested, state);
            RunGraph(graph, memory, state)
            == Continue(ParallelIngestion, ParallelIngestionSuccessTransition, state, Forecasting, visit.result,
                        memory.(ingested := visit.successes))
  {
    var visit := PhaseNode(graph.ingestion, memory.ingested, state);
    var after := memory.(ingested := visit.successes);
    assert NodeBody(graph, WorkflowEntry, memory, state) == Effect(Ok(state), memory);
    assert NodeBody(graph, ParallelIngestion, memory, state) == Effect(visit.result, after);
    assert NodeBody(graph, ParallelIngestionSuccessTransition, after, state) == Effect(Ok(state.(phase := Forecasting)), after);
    assert Walk(graph, End, after, state.(phase := Forecasting)).visited == [];
  }

  lemma AfterForecasting<P, V, Q, W>(graph: Graph<P, V, Q, W>, memory: Memory<V, W>, state: Snapshot)
    requires Wired(graph) && At(state, Forecasting, WorkflowStatus.Running)
    requires var result := PhaseNode(graph.forecasting, memory.forecasted, state).result;
             result.Ok? ==> result.value in {state, state.(status := Failed)}
    ensures var visit := PhaseNode(graph.forecasting, memory.forecasted, state);
            RunGraph(graph, memory, state)
            == Continue(ForecastingNode, ForecastingSuccessTransition, state, RiskAndBid, visit.result,
                        memory.(forecasted := visit.successes))
  {
    var visit := PhaseNode(graph.forecasting, memory.forecasted, state);
    var after := memory.(forecasted := visit.successes);
    assert NodeBody(graph, WorkflowEntry, memory, state) == Effect(Ok(state), memory);
    assert NodeBody(graph, ForecastingNode, memory, state) == Effect(visit.result, after);
    assert NodeBody(graph, ForecastingSuccessTransition, after, state) == Effect(Ok(state.(phase := RiskAndBid)), after);
    assert Walk(graph, End, after, state.(phase := RiskAndBid)).visited == [];
  }

  lemma SettleOutcomes<P, V>(stage: Stage<P, V>, endings: seq<Ending<V>>, before: map<string, seq<V>>, state: Snapshot)
    requires |endings| == |stage.agents|
    ensures var result := Settle(stage, endings, before, state).result;
            result.Ok? ==> result.value in {state, state.(status := Failed)}
  {
  }

  /** An ingestion run, under any policy and any kind of failure, is settled by how each branch ended. */
  lemma IngestionSettles<P, V, Q, W>(graph: Graph<P, V, Q, W>, memory: Memory<V, W>, state: Snapshot, endings: seq<Ending<V>>)
    requires Wired(graph) && At(state, Ingestion, WorkflowStatus.Running)
    requires EndsAs(graph.ingestion, state.workflowId, endings)
    ensures var visit := Settle(graph.ingestion, endings, memory.ingested, state);
            RunGraph(graph, memory, state)
            == Continue(ParallelIngestion, ParallelIngestionSuccessTransition, state, Forecasting, visit.result,
                        memory.(ingested := visit.successes))
  {
    PhaseSettles(graph.ingestion, endings, memory.ingested, state);
    SettleOutcomes(graph.ingestion, endings, memory.ingested, state);
    AfterIngestion(graph, memory, state);
  }

  lemma ForecastingSettles<P, V, Q, W>(graph: Graph<P, V, Q, W>, memory: Memory<V, W>, state: Snapshot, endings: seq<Ending<W>>)
    requires Wired(graph) && At(state, Forecasting, WorkflowStatus.Running)
    requires EndsAs(graph.forecasting, state.workflowId, endings)
    ensures var visit := Settle(graph.forecasting, endings, memory.forecasted, state);
            RunGraph(graph, memory, state)
            == Continue(ForecastingNode, ForecastingSuccessTransition, state, RiskAndBid, visit.result,
                        memory.(forecasted := visit.successes))
  {
    PhaseSettles(graph.forecasting, endings, memory.forecasted, state);
    SettleOutcomes(graph.forecasting, endings, memory.forecasted, state);
    AfterForecasting(graph, memory, state);
  }

  /** Where a run went, once its phase node was left with a result. */
  ghost predicate Visited<V, W>(run: Run<V, W>, node: Node, transition: Node, next: WorkflowPhase) {
    run.visited == [WorkflowEntry, node] + if run.result.Ok? && run.result.value.phase == next then [transition] else []
  }

  /** An ingestion run ends in exactly one of five ways; only the last records anything, and none reaches forecasting. */
  lemma IngestionRun<P, V, Q, W>(graph: Graph<P, V, Q, W>, memory: Memory<V, W>, state: Snapshot, endings: seq<Ending<V>>)
    requires Wired(graph) && At(state, Ingestion, WorkflowStatus.Running)
    requires EndsAs(graph.ingestion, state.workflowId, endings) && Ordinary(endings)
    requires graph.ingestion.policy == InitialPolicy
    ensures var run := RunGraph(graph, memory, state);
            && Concludes(graph.ingestion, endings, state, memory.ingested, run.result, run.memory.ingested)
            && run.memory.forecasted == memory.forecasted
            && Visited(run, ParallelIngestion, ParallelIngestionSuccessTransition, Forecasting)
  {
    IngestionSettles(graph, memory, state, endings);
    SettleOrdinary(graph.ingestion, endings, memory.ingested, state);
    SettleOutcomes(graph.ingestion, endings, memory.ingested, state);
  }

  /** The same for forecasting and its two branches. */
  lemma ForecastingRun<P, V, Q, W>(graph: Graph<P, V, Q, W>, memory: Memory<V, W>, state: Snapshot, endings: seq<Ending<W>>)
    requires Wired(graph) && At(state, Forecasting, WorkflowStatus.Running)
    requires EndsAs(graph.forecasting, state.workflowId, endings) && Ordinary(endings)
    requires graph.forecasting.policy == InitialPolicy
    ensures var run := RunGraph(graph, memory, state);
            && Concludes(graph.forecasting, endings, state, memory.forecasted, run.result, run.memory.forecasted)
            && run.memory.ingested == memory.ingested
            && Visited(run, ForecastingNode, ForecastingSuccessTransition, RiskAndBid)
  {
    ForecastingSettles(graph, memory, state, endings);
    SettleOrdinary(graph.forecasting, endings, memory.forecasted, state);
    SettleOutcomes(graph.forecasting, endings, memory.forecasted, state);
  }

  /** Without a plan the phase is refused before any agent runs. */
  lemma UnplannedRun<P, V, Q, W>(graph: Graph<P, V, Q, W>, memory: Memory<V, W>, state: Snapshot)
    requires Wired(graph) && state.status.Running?
    requires if state.phase.Ingestion? then state.workflowId !in graph.ingestion.plans
             else state.phase.Forecasting? && state.workflowId !in graph.forecasting.plans
    ensures RunGraph(graph, memory, state).result == Err(Refused(NotFound))
    ensures RunGraph(graph, memory, state).memory == memory
  {
    var node := if state.phase.Ingestion? then ParallelIngestion else ForecastingNode;
    assert Route(WorkflowEntry, state) == Ok(node);
    assert NodeBody(graph, node, memory, state) == Effect(Err(Refused(NotFound)), memory);
  }

  /** From any other snapshot than the three routed ones a run is refused; a contract run returns its snapshot untouched. */
  lemma OtherRuns<P, V, Q, W>(graph: Graph<P, V, Q, W>, memory: Memory<V, W>, state: Snapshot)
    requires Wired(graph)
    requires !At(state, Ingestion, WorkflowStatus.Running) && !At(state, Forecasting, WorkflowStatus.Running)
    ensures RunGraph(graph, memory, state).memory == memory
    ensures RunGraph(graph, memory, state).result
            == if !At(state, Contract, WorkflowStatus.Running) then Err(Refused(InvalidRequest))
               else if graph.regulatory(state).Err? then Err(graph.regulatory(state).error)
               else Ok(state)
  {
    if At(state, Contract, WorkflowStatus.Running) {
      assert Route(WorkflowEntry, state) == Ok(RegulatoryIntelligenceNode);
      if graph.regulatory(state).Ok? {
        assert Route(RegulatoryIntelligenceNode, state) == Ok(End);
      }
    }
  }

  // ---------- every run ----------

  ghost predicate Keeps<S>(before: map<string, S>, after: map<string, S>) {
    forall id :: id in before ==> id in after && after[id] == before[id]
  }

  /** What holds of any node and so of any path through the graph. */
  ghost predicate Conservative<V, W>(state: Snapshot, before: Memory<V, W>, result: Result<Snapshot, Fault>,
                                     after: Memory<V, W>) {
    && (result.Ok? ==> SameWorkflow(result.value, state))
    && Keeps(before.ingested, after.ingested) && Keeps(before.forecasted, after.forecasted)
    && (forall id :: id in after.ingested && id !in before.ingested ==> id == state.workflowId)
    && (forall id :: id in after.forecasted && id !in before.forecasted ==> id == state.workflowId)
  }

  lemma HandleKeepsWorkflow(phase: WorkflowPhase, policy: Policy, state: Snapshot, members: seq<Failure>)
    ensures Handle(phase, policy, state, members).Ok? ==> SameWorkflow(Handle(phase, policy, state, members).value, state)
  {
  }

  lemma PhaseNodeConservative<P, V>(stage: Stage<P, V>, before: map<string, seq<V>>, state: Snapshot)
    requires Sound(stage)
    ensures PhaseNode(stage, before, state).result.Ok? ==> SameWorkflow(PhaseNode(stage, before, state).result.value, state)
    ensures Keeps(before, PhaseNode(stage, before, state).successes)
    ensures forall id :: id in PhaseNode(stage, before, state).successes && id !in before ==> id == state.workflowId
  {
    var stepped := Step(stage, before, state.workflowId);
    if stepped.result.Err? && stepped.result.error.FailureGroup? {
      HandleKeepsWorkflow(stage.phase, stage.policy, state, stepped.result.error.members);
    }
  }

  lemma NodeConservative<P, V, Q, W>(graph: Graph<P, V, Q, W>, node: Node, memory: Memory<V, W>, state: Snapshot)
    requires Wired(graph)
    ensures var effect := NodeBody(graph, node, memory, state); Conservative(state, memory, effect.result, effect.memory)
  {
    if node.ParallelIngestion? {
      PhaseNodeConservative(graph.ingestion, memory.ingested, state);
    } else if node.ForecastingNode? {
      PhaseNodeConservative(graph.forecasting, memory.forecasted, state);
    }
  }

  /** Whatever the entry, the agents and the policy, a run keeps the snapshot's identity and diagnostics and every earlier success. */
  lemma {:induction false} RunConservative<P, V, Q, W>(graph: Graph<P, V, Q, W>, node: Node, memory: Memory<V, W>,
                                                       state: Snapshot)
    requires Wired(graph)
    ensures var run := Walk(graph, node, memory, state); Conservative(state, memory, run.result, run.memory)
    decreases Rank(node)
  {
    NodeConservative(graph, node, memory, state);
    var effect := NodeBody(graph, node, memory, state);
    if !node.End? && effect.result.Ok? {
      var next := Route(node, effect.result.value);
      if next.Ok? {
        RunConservative(graph, next.value, effect.memory, effect.result.value);
      }
    }
  }

  // ---------- several runs ----------

  /** Runs one after another over the same stores; each in a world of its own, so agents may end differently each time. */
  function Session<P, V(==), Q, W(==)>(memory: Memory<V, W>, runs: seq<(Graph<P, V, Q, W>, Snapshot)>): Memory<V, W>
    requires forall run :: run in runs ==> Wired(run.0)
  {
    if runs == [] then memory
    else
      var (graph, state) := runs[|runs| - 1];
      RunGraph(graph, Session(memory, runs[..|runs| - 1]), state).memory
  }

  ghost predicate Ran<P, V, Q, W>(runs: seq<(Graph<P, V, Q, W>, Snapshot)>, workflowId: string) {
    exists run :: run in runs && run.1.workflowId == workflowId
  }

  /** Over any sequence of runs a recorded success is never replaced, and only workflows that ran gain one. */
  lemma {:induction false} SessionKeeps<P, V, Q, W>(memory: Memory<V, W>, runs: seq<(Graph<P, V, Q, W>, Snapshot)>)
    requires forall run :: run in runs ==> Wired(run.0)
    ensures Keeps(memory.ingested, Session(memory, runs).ingested)
    ensures Keeps(memory.forecasted, Session(memory, runs).forecasted)
    ensures forall id :: id in Session(memory, runs).ingested && id !in memory.ingested ==> Ran(runs, id)
    ensures forall id :: id in Session(memory, runs).forecasted && id !in memory.forecasted ==> Ran(runs, id)
  {
    if runs != [] {
      var front, last := runs[..|runs| - 1], runs[|runs| - 1];
      SessionKeeps(memory, front);
      RunConservative(last.0, WorkflowEntry, Session(memory, front), last.1);
      hide Wired;
      assert runs == front + [last];
      assert last in runs;
      forall id | Ran(front, id) ensures Ran(runs, id) {
        var run :| run in front && run.1.workflowId == id;
        assert run in runs;
      }
    }
  }

  /**
   * Running an ingestion again, in a world where its agents end the same way in whatever order, ends the
   * same and records nothing more.
   */
  lemma IngestionRerun<P, V, Q, W>(first: Graph<P, V, Q, W>, again: Graph<P, V, Q, W>, memory: Memory<V, W>,
                                   state: Snapshot, endings: seq<Ending<V>>)
    requires Wired(first) && Wired(again) && At(state, Ingestion, WorkflowStatus.Running)
    requires EndsAs(first.ingestion, state.workflowId, endings) && EndsAs(again.ingestion, state.workflowId, endings)
    requires first.ingestion.policy == again.ingestion.policy
    ensures RunGraph(again, RunGraph(first, memory, state).memory, state) == RunGraph(first, memory, state)
  {
    IngestionSettles(first, memory, state, endings);
    IngestionSettles(again, RunGraph(first, memory, state).memory, state, endings);
  }

  /**
   * After a recorded ingestion, a run in which the agents return something else is refused as a conflict,
   * and one in which they fail or are cancelled changes nothing recorded either.
   */
  lemma LaterRunKeepsTheFirst<P, V, Q, W>(graph: Graph<P, V, Q, W>, memory: Memory<V, W>, state: Snapshot,
                                          endings: seq<Ending<V>>)
    requires Wired(graph) && At(state, Ingestion, WorkflowStatus.Running) && state.workflowId in memory.ingested
    requires EndsAs(graph.ingestion, state.workflowId, endings) && Ordinary(endings)
    requires graph.ingestion.policy == InitialPolicy
    ensures RunGraph(graph, memory, state).memory == memory
    ensures RunGraph(graph, memory, state).result == Err(Refused(Conflict)) <==>
            (forall ending :: ending in endings ==> ending.Returned?) && Values(endings) != memory.ingested[state.workflowId]
  {
    IngestionRun(graph, memory, state, endings);
    RaisingNone(graph.ingestion.agents, endings);
    hide Wired, EndsAs, RunGraph, Raising;
  }

  /** Two worlds whose ingestion agents end alike, in whatever order, see the same run. */
  lemma IngestionIgnoresInterleaving<P, V, Q, W>(one: Graph<P, V, Q, W>, other: Graph<P, V, Q, W>, memory: Memory<V, W>,
                                                 state: Snapshot, endings: seq<Ending<V>>)
    requires Wired(one) && Wired(other) && At(state, Ingestion, WorkflowStatus.Running)
    requires EndsAs(one.ingestion, state.workflowId, endings) && EndsAs(other.ingestion, state.workflowId, endings)
    requires one.ingestion.policy == other.ingestion.policy
    ensures RunGraph(one, memory, state) == RunGraph(other, memory, state)
  {
    IngestionSettles(one, memory, state, endings);
    IngestionSettles(other, memory, state, endings);
  }
}
