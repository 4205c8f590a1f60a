/** Plans to run and successes recorded, kept in memory: the first success recorded for a workflow stands. */
module WorkflowContext {
  import opened Wrappers

  datatype Recorded<Success> = Recorded(result: Result<(), AppError>, successes: map<string, Success>)

  /** What recording returns and leaves behind. */
  function Record<Success(==)>(successes: map<string, Success>, workflowId: string, success: Success): Recorded<Success> {
    if workflowId !in successes then Recorded(Ok(()), successes[workflowId := success])
    else Recorded(if successes[workflowId] == success then Ok(()) else Err(Conflict), successes)
  }

  class InMemoryWorkflowContext<Plan, Success(==)> {
    const plans: map<string, Plan>
    var successes: map<string, Success>

    constructor (plans: map<string, Plan>)
      ensures this.plans == plans && successes == map[]
    {
      this.plans := plans;
      successes := map[];
    }

    method ResolvePlan(workflowId: string) returns (r: Result<Plan, AppError>)
      ensures r == if workflowId in plans then Ok(plans[workflowId]) else Err(NotFound)
    {
      if workflowId !in plans {
        return Err(NotFound);
      }
      r := Ok(plans[workflowId]);
    }

    method RecordSuccess(workflowId: string, success: Success) returns (r: Result<(), AppError>)
      modifies this
      ensures Recorded(r, successes) == Record(old(successes), workflowId, success)
    {
      if workflowId !in successes {
        successes := successes[workflowId := success];
        return Ok(());
      }
      if successes[workflowId] == success {
        return Ok(());
      }
      r := Err(Conflict);
    }
  }

  // ---------- any sequence of recordings ----------

  datatype Call<Success> = Call(workflowId: string, success: Success)

  function RecordAll<Success(==)>(successes: map<string, Success>, calls: seq<Call<Success>>): map<string, Success> {
    if calls == [] then successes
    else
      var last := calls[|calls| - 1];
      Record(RecordAll(successes, calls[..|calls| - 1]), last.workflowId, last.success).successes
  }

  /** The first success among `calls` for one workflow. */
  function First<Success>(calls: seq<Call<Success>>, workflowId: string): Option<Success> {
    if calls == [] then None
    else if calls[0].workflowId == workflowId then Some(calls[0].success)
    else First(calls[1..], workflowId)
  }

  lemma {:induction false} FirstAppend<Success>(calls: seq<Call<Success>>, call: Call<Success>, workflowId: string)
    ensures First(calls + [call], workflowId)
            == if First(calls, workflowId).Some? then First(calls, workflowId)
               else if call.workflowId == workflowId then Some(call.success) else None
  {
    if calls != [] {
      FirstAppend(calls[1..], call, workflowId);
      assert (calls + [call])[1..] == calls[1..] + [call];
    }
  }

  /** Starting empty, what is stored for a workflow is the first success ever recorded for it. */
  lemma {:induction false} FirstWriteStands<Success>(calls: seq<Call<Success>>, workflowId: string)
    ensures First(calls, workflowId)
            == if workflowId in RecordAll(map[], calls) then Some(RecordAll(map[], calls)[workflowId]) else None
  {
    if calls != [] {
      var front, last := calls[..|calls| - 1], calls[|calls| - 1];
      assert calls == front + [last];
      FirstWriteStands(front, workflowId);
      FirstAppend(front, last, workflowId);
    }
  }

  /** A recording after `calls` succeeds exactly when it repeats, or is, the first success for its workflow. */
  lemma RecordMeaning<Success>(calls: seq<Call<Success>>, workflowId: string, success: Success)
    ensures Record(RecordAll(map[], calls), workflowId, success).result
            == if First(calls, workflowId) in {None, Some(success)} then Ok(()) else Err(Conflict)
  {
    FirstWriteStands(calls, workflowId);
  }
}
