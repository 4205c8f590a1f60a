/** What becomes of a phase whose agents failed: one unambiguous failure ends it, anything else is refused. */
module FailureHandling {
  import opened Wrappers
  import opened WorkflowState
  import opened AgentFailures

  datatype FailureFact = FailureFact(agent: AgentName, code: string)

  datatype FailureAction = Retry | Fallback | Fail

  datatype FailurePolicyContext = FailurePolicyContext(phase: WorkflowPhase, code: string, attempt: nat, agent: AgentName)

  /** The code reported for a cause that is not an application error. */
  function UnexpectedCode(phase: WorkflowPhase): string {
    if phase == Forecasting then "forecasting_unexpected_failure" else "parallel_ingestion_unexpected_failure"
  }

  function ErrorCode(error: AppError): string {
    match error
    case InvalidRequest => "invalid_request"
    case NotFound => "resource_not_found"
    case Conflict => "conflict"
    case DependencyUnavailable => "dependency_unavailable"
  }

  function ClassifyOne(phase: WorkflowPhase, failure: AgentFailure): FailureFact {
    FailureFact(failure.agent, if failure.cause.Application? then ErrorCode(failure.cause.error) else UnexpectedCode(phase))
  }

  /** One fact per failure, in order. */
  function Classify(phase: WorkflowPhase, failures: seq<AgentFailure>): seq<FailureFact> {
    Map(failure => ClassifyOne(phase, failure), failures)
  }

  /** Exactly one fact, or refused. */
  function Select(facts: seq<FailureFact>): Result<FailureFact, AppError> {
    if |facts| != 1 then Err(InvalidRequest) else Ok(facts[0])
  }

  /** Every failure reaching a policy is a first attempt. */
  const ATTEMPT_NUMBER: nat := 1

  function Prepare(phase: WorkflowPhase, members: seq<Failure>): Result<FailurePolicyContext, AppError> {
    var failures :- Extract(members);
    var fact :- Select(Classify(phase, failures));
    Ok(FailurePolicyContext(phase, fact.code, ATTEMPT_NUMBER, fact.agent))
  }

  type Policy = FailurePolicyContext -> FailureAction

  /** The policy in force: every failure is terminal. */
  function InitialPolicy(context: FailurePolicyContext): FailureAction {
    Fail
  }

  function ExecuteAction(phase: WorkflowPhase, state: Snapshot, action: FailureAction): Result<Snapshot, AppError> {
    match action
    case Fail => FailPhase(phase, state)
    case Retry => Err(InvalidRequest)
    case Fallback => Err(InvalidRequest)
  }

  function Handle(phase: WorkflowPhase, policy: Policy, state: Snapshot, members: seq<Failure>): Result<Snapshot, AppError> {
    var context :- Prepare(state.phase, members);
    ExecuteAction(phase, state, policy(context))
  }

  /** The one leaf of a group, when it has exactly one and that one is attributed. */
  predicate SingleFailure(members: seq<Failure>) {
    |Leaves(members)| == 1 && Leaves(members)[0].Attributed?
  }

  /** What a policy is told about that leaf: whose it is and a code that never carries the exception's own text. */
  function SingleContext(phase: WorkflowPhase, members: seq<Failure>): FailurePolicyContext
    requires SingleFailure(members)
  {
    var leaf := Leaves(members)[0];
    FailurePolicyContext(
      phase,
      if leaf.cause.Application? then ErrorCode(leaf.cause.error) else UnexpectedCode(phase),
      ATTEMPT_NUMBER,
      leaf.agent)
  }

  lemma PrepareMeaning(phase: WorkflowPhase, members: seq<Failure>)
    ensures if SingleFailure(members) then Prepare(phase, members) == Ok(SingleContext(phase, members))
            else Prepare(phase, members) == Err(InvalidRequest)
  {
    ExtractMeaning(members);
    if Extract(members).Ok? {
      var failures := Extract(members).value;
      assert |failures| == |Leaves(members)|;
      if |failures| == 1 {
        assert Leaves(members)[0] == AsLeaf(failures[0]);
      }
    } else if |Leaves(members)| == 1 {
      assert Leaves(members) == [Leaves(members)[0]];
    }
  }

  /**
   * Under any policy a snapshot becomes a failed one exactly when it is running in this phase and one
   * attributed leaf meets the action FAIL; all else is refused.
   */
  lemma HandleMeaning(phase: WorkflowPhase, policy: Policy, state: Snapshot, members: seq<Failure>)
    ensures if state.phase == phase && state.status == Running
               && SingleFailure(members) && policy(SingleContext(phase, members)) == Fail
            then Handle(phase, policy, state, members) == Ok(state.(status := Failed))
            else Handle(phase, policy, state, members) == Err(InvalidRequest)
  {
    PrepareMeaning(state.phase, members);
  }

  /** What a policy is told tells every two causes apart. */
  lemma CodesTellCauses(phase: WorkflowPhase, a: AgentFailure, b: AgentFailure)
    ensures ClassifyOne(phase, a) == ClassifyOne(phase, b) <==> a == b
  {
  }

  lemma SelectIgnoresOrder(phase: WorkflowPhase, a: seq<AgentFailure>, b: seq<AgentFailure>)
    requires multiset(a) == multiset(b)
    ensures Select(Classify(phase, a)) == Select(Classify(phase, b))
  {
    assert |a| == |multiset(a)| == |multiset(b)| == |b|;
    if |a| == 1 {
      SingletonBag(a, b);
    }
  }

  /** The order in which the failures arrived does not matter. */
  lemma HandleIgnoresOrder(phase: WorkflowPhase, policy: Policy, state: Snapshot, a: seq<Failure>, b: seq<Failure>)
    requires multiset(a) == multiset(b)
    ensures Handle(phase, policy, state, a) == Handle(phase, policy, state, b)
  {
    ExtractReorder(a, b);
    if Extract(a).Ok? {
      SelectIgnoresOrder(state.phase, Extract(a).value, Extract(b).value);
    }
  }
}
