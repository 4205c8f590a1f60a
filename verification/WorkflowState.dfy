/** The workflow snapshot and the only two ways a phase replaces it. */
module WorkflowState {
  import opened Wrappers

  datatype WorkflowPhase = Contract | Ingestion | Forecasting | RiskAndBid | Settlement

  datatype WorkflowStatus = Pending | Running | Succeeded | Failed

  datatype Snapshot = Snapshot(
    workflowId: string,
    portfolioId: string,
    deliveryDate: int,
    correlationId: string,
    phase: WorkflowPhase,
    status: WorkflowStatus,
    diagnostics: seq<string>)

  /** Nothing but phase and status differs. */
  predicate SameWorkflow(a: Snapshot, b: Snapshot) {
    a == b.(phase := a.phase, status := a.status)
  }

  predicate At(state: Snapshot, phase: WorkflowPhase, status: WorkflowStatus) {
    state.phase == phase && state.status == status
  }

  /** The success transition out of a running `phase`. */
  function Advance(phase: WorkflowPhase, next: WorkflowPhase, state: Snapshot): Result<Snapshot, AppError> {
    if !At(state, phase, Running) then Err(InvalidRequest)
    else Ok(state.(phase := next, status := Running))
  }

  /** The terminal failure transition of a running `phase`. */
  function FailPhase(phase: WorkflowPhase, state: Snapshot): Result<Snapshot, AppError> {
    if !At(state, phase, Running) then Err(InvalidRequest)
    else Ok(state.(phase := phase, status := Failed))
  }
}
