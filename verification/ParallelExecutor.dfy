/** Running a phase's agents concurrently in a task group, under every interleaving of how they end. */
module ParallelExecutor {
  import opened Wrappers
  import opened AgentFailures

  /** How one branch ends. A branch may end in any of these ways while its siblings are being cancelled. */
  datatype Ending<V> =
    | Returned(value: V)
    | Raised(cause: Cause)       // an ordinary exception, attributed to the branch's agent
    | Escaped(failure: Failure)  // a base exception that is neither ordinary nor a cancellation
    | Cancelled

  /** The moment a branch ends. An interleaving is a sequence of these. */
  datatype Event<V> = Event(branch: nat, ending: Ending<V>)

  datatype Task<V> = Running | Finished(ending: Ending<V>)

  datatype TaskGroup<V> = TaskGroup(tasks: seq<Task<V>>, errors: seq<Failure>)

  /** What awaiting the group ends in. */
  datatype Execution<V> =
    | Success(values: seq<V>)
    | FailureGroup(members: seq<Failure>)
    | Interrupted

  /** The five ingestion branches, in result order. */
  const INGESTION_AGENTS := [
    WeatherAndRenewableForecast, HydroResources, GenerationAvailability, NewsIntelligence, MarketMonitoring
  ]

  const FORECASTING_AGENTS := [ConsumerLoadForecast, DamPriceForecast]

  /** The exception the wrapped branch ends with, if the task group gets to see one. */
  function RunAttributed<V>(agent: AgentName, ending: Ending<V>): seq<Failure> {
    match ending
    case Returned(_) => []
    case Raised(cause) => [Attributed(agent, cause)]
    case Escaped(failure) => [failure]
    case Cancelled => []
  }

  function Start<V>(agents: seq<AgentName>): TaskGroup<V> {
    TaskGroup(seq(|agents|, _ => Running), [])
  }

  function OnTaskDone<V>(agents: seq<AgentName>, group: TaskGroup<V>, event: Event<V>): TaskGroup<V>
    requires event.branch < |agents| == |group.tasks|
  {
    TaskGroup(
      group.tasks[event.branch := Finished(event.ending)],
      group.errors + RunAttributed(agents[event.branch], event.ending))
  }

  /** Each branch ends at most once. */
  ghost predicate Partial<V>(n: nat, schedule: seq<Event<V>>) {
    && (forall e :: e in schedule ==> e.branch < n)
    && (forall i, j :: 0 <= i < j < |schedule| ==> schedule[i].branch != schedule[j].branch)
  }

  /** Each branch ends exactly once. */
  ghost predicate Complete<V>(n: nat, schedule: seq<Event<V>>) {
    && Partial(n, schedule)
    && (forall i :: 0 <= i < n ==> Ends(schedule, i))
  }

  ghost predicate Ends<V>(schedule: seq<Event<V>>, branch: nat) {
    exists e :: e in schedule && e.branch == branch
  }

  function Replay<V>(agents: seq<AgentName>, schedule: seq<Event<V>>): (group: TaskGroup<V>)
    requires forall e :: e in schedule ==> e.branch < |agents|
    ensures |group.tasks| == |agents|
  {
    if schedule == [] then Start(agents)
    else OnTaskDone(agents, Replay(agents, schedule[..|schedule| - 1]), schedule[|schedule| - 1])
  }

  /** The results in branch order, unless some branch has none. */
  function Gather<V>(tasks: seq<Task<V>>): Option<seq<V>> {
    if tasks == [] then Some([])
    else
      var earlier, last := Gather(tasks[..|tasks| - 1]), tasks[|tasks| - 1];
      if earlier.None? || last.Running? || !last.ending.Returned? then None
      else Some(earlier.value + [last.ending.value])
  }

  function Leave<V>(group: TaskGroup<V>): Execution<V> {
    if group.errors != [] then FailureGroup(group.errors)
    else
      match Gather(group.tasks)
      case Some(values) => Success(values)
      case None => Interrupted
  }

  function Execute<V>(agents: seq<AgentName>, schedule: seq<Event<V>>): Execution<V>
    requires forall e :: e in schedule ==> e.branch < |agents|
  {
    Leave(Replay(agents, schedule))
  }

  lemma {:induction false} GatherStops<V>(tasks: seq<Task<V>>, i: nat)
    requires i <= |tasks| && Gather(tasks[..i]).None?
    ensures Gather(tasks).None?
  {
    if i < |tasks| {
      assert tasks[..|tasks| - 1][..i] == tasks[..i];
      GatherStops(tasks[..|tasks| - 1], i);
    } else {
      assert tasks[..i] == tasks;
    }
  }

  /** The event loop: deliver every branch's end to the task group. */
  method AwaitAll<V>(agents: seq<AgentName>, schedule: seq<Event<V>>) returns (tasks: seq<Task<V>>, errors: seq<Failure>)
    requires forall e :: e in schedule ==> e.branch < |agents|
    ensures TaskGroup(tasks, errors) == Replay(agents, schedule)
  {
    tasks, errors := seq(|agents|, _ => Running), [];
    for k := 0 to |schedule|
      invariant TaskGroup(tasks, errors) == Replay(agents, schedule[..k])
    {
      var event := schedule[k];
      assert schedule[..k + 1][..k] == schedule[..k];
      tasks := tasks[event.branch := Finished(event.ending)];
      match event.ending {
        case Raised(cause) => errors := errors + [Attributed(agents[event.branch], cause)];
        case Escaped(failure) => errors := errors + [failure];
        case Returned(_) => assert errors + [] == errors;
        case Cancelled => assert errors + [] == errors;
      }
    }
    assert schedule[..|schedule|] == schedule;
  }

  /** Each task's result, in branch order. */
  method GatherResults<V>(tasks: seq<Task<V>>) returns (r: Option<seq<V>>)
    ensures r == Gather(tasks)
  {
    var values: seq<V> := [];
    for i := 0 to |tasks|
      invariant Gather(tasks[..i]) == Some(values)
    {
      assert tasks[..i + 1][..i] == tasks[..i];
      if tasks[i].Running? || !tasks[i].ending.Returned? {
        GatherStops(tasks, i + 1);
        return None;
      }
      values := values + [tasks[i].ending.value];
    }
    assert tasks[..|tasks|] == tasks;
    r := Some(values);
  }

  method RunConcurrently<V>(agents: seq<AgentName>, schedule: seq<Event<V>>) returns (r: Execution<V>)
    requires forall e :: e in schedule ==> e.branch < |agents|
    ensures r == Execute(agents, schedule)
  {
    var tasks, errors := AwaitAll(agents, schedule);
    if errors != [] {
      return FailureGroup(errors);
    }
    var values := GatherResults(tasks);
    r := if values.Some? then Success(values.value) else Interrupted;
  }

  // ---------- what every interleaving has in common ----------

  /** How each branch ended, whatever the order. */
  ghost predicate EndedAs<V>(schedule: seq<Event<V>>, endings: seq<Ending<V>>) {
    && Complete(|endings|, schedule)
    && (forall e :: e in schedule ==> e.ending == endings[e.branch])
  }

  function TaskExceptions<V>(agent: AgentName, task: Task<V>): seq<Failure> {
    if task.Finished? then RunAttributed(agent, task.ending) else []
  }

  /** The exceptions of the branches that have ended, in branch order. */
  function Exceptions<V>(agents: seq<AgentName>, tasks: seq<Task<V>>): seq<Failure>
    requires |agents| == |tasks|
  {
    if tasks == [] then []
    else
      var last := |tasks| - 1;
      Exceptions(agents[..last], tasks[..last]) + TaskExceptions(agents[last], tasks[last])
  }

  function AllFinished<V>(endings: seq<Ending<V>>): seq<Task<V>> {
    Map(ending => Finished(ending), endings)
  }

  lemma BagExtend<T>(before: seq<T>, after: seq<T>, extra: seq<T>, tail: seq<T>)
    requires multiset(after) == multiset(before) + multiset(extra)
    ensures multiset(after + tail) == multiset(before + tail) + multiset(extra)
  {
  }

  lemma ExceptionsLast<V>(agents: seq<AgentName>, tasks: seq<Task<V>>, ending: Ending<V>)
    requires |agents| == |tasks| > 0 && tasks[|tasks| - 1].Running?
    ensures Exceptions(agents, tasks[|tasks| - 1 := Finished(ending)])
            == Exceptions(agents, tasks) + RunAttributed(agents[|tasks| - 1], ending)
  {
    assert tasks[|tasks| - 1 := Finished(ending)][..|tasks| - 1] == tasks[..|tasks| - 1];
  }

  lemma {:induction false} ExceptionsUpdate<V>(agents: seq<AgentName>, tasks: seq<Task<V>>, branch: nat, ending: Ending<V>)
    requires branch < |agents| == |tasks| && tasks[branch].Running?
    ensures multiset(Exceptions(agents, tasks[branch := Finished(ending)]))
            == multiset(Exceptions(agents, tasks)) + multiset(RunAttributed(agents[branch], ending))
  {
    var last := |tasks| - 1;
    if branch == last {
      ExceptionsLast(agents, tasks, ending);
    } else {
      var updated := tasks[branch := Finished(ending)];
      ExceptionsUpdate(agents[..last], tasks[..last], branch, ending);
      assert updated[..last] == tasks[..last][branch := Finished(ending)];
      BagExtend(Exceptions(agents[..last], tasks[..last]), Exceptions(agents[..last], updated[..last]),
                RunAttributed(agents[branch], ending), TaskExceptions(agents[last], tasks[last]));
    }
  }

  lemma {:induction false} StartHasNoExceptions<V>(agents: seq<AgentName>, tasks: seq<Task<V>>)
    requires |agents| == |tasks| && forall i :: 0 <= i < |tasks| ==> tasks[i].Running?
    ensures Exceptions(agents, tasks) == []
  {
    if tasks != [] {
      StartHasNoExceptions(agents[..|tasks| - 1], tasks[..|tasks| - 1]);
    }
  }

  ghost predicate TasksFollow<V>(schedule: seq<Event<V>>, tasks: seq<Task<V>>) {
    && (forall e :: e in schedule ==> e.branch < |tasks| && tasks[e.branch] == Finished(e.ending))
    && (forall i :: 0 <= i < |tasks| && !Ends(schedule, i) ==> tasks[i].Running?)
  }

  lemma {:induction false} TasksFollowOne<V>(front: seq<Event<V>>, last: Event<V>, tasks: seq<Task<V>>)
    requires TasksFollow(front, tasks) && last.branch < |tasks| && !Ends(front, last.branch)
    ensures TasksFollow(front + [last], tasks[last.branch := Finished(last.ending)])
    ensures tasks[last.branch].Running?
  {
    forall e | e in front ensures e.branch != last.branch {
    }
    forall i | 0 <= i < |tasks| && !Ends(front + [last], i) ensures !Ends(front, i) && i != last.branch {
      assert last in front + [last];
      assert forall e :: e in front ==> e in front + [last];
    }
  }

  /** What a task group has come to after `schedule`. */
  ghost predicate Follows<V>(agents: seq<AgentName>, schedule: seq<Event<V>>, group: TaskGroup<V>) {
    && |group.tasks| == |agents| && TasksFollow(schedule, group.tasks)
    && multiset(group.errors) == multiset(Exceptions(agents, group.tasks))
  }

  lemma {:induction false} FollowOne<V>(agents: seq<AgentName>, front: seq<Event<V>>, last: Event<V>, group: TaskGroup<V>)
    requires Follows(agents, front, group) && last.branch < |agents| && !Ends(front, last.branch)
    ensures Follows(agents, front + [last], OnTaskDone(agents, group, last))
  {
    TasksFollowOne(front, last, group.tasks);
    ExceptionsUpdate(agents, group.tasks, last.branch, last.ending);
    hide Exceptions, RunAttributed, TasksFollow, Ends;
  }

  /** At every moment the collected errors are those of the branches that ended, each once, under its own agent. */
  lemma {:induction false} ReplayInvariant<V>(agents: seq<AgentName>, schedule: seq<Event<V>>)
    requires Partial(|agents|, schedule)
    ensures Follows(agents, schedule, Replay(agents, schedule))
  {
    if schedule == [] {
      StartHasNoExceptions<V>(agents, Replay<V>(agents, schedule).tasks);
    } else {
      var front, last := schedule[..|schedule| - 1], schedule[|schedule| - 1];
      assert schedule == front + [last];
      ReplayInvariant(agents, front);
      assert !Ends(front, last.branch);
      hide Follows, OnTaskDone, Ends;
      FollowOne(agents, front, last, Replay(agents, front));
    }
  }

  /** What the task group sees of an ended branch that did not return and was not cancelled. */
  ghost predicate Thrown<V>(agents: seq<AgentName>, event: Event<V>, failure: Failure) {
    && event.branch < |agents|
    && match event.ending
       case Raised(cause) => failure == Attributed(agents[event.branch], cause)
       case Escaped(thrown) => failure == thrown
       case _ => false
  }

  /** `failures` are, in order, what exactly the failing events threw; `events` are their positions. */
  ghost predicate ThrownInOrder<V>(agents: seq<AgentName>, schedule: seq<Event<V>>, events: seq<nat>, failures: seq<Failure>) {
    && |events| == |failures|
    && (forall i, j :: 0 <= i < j < |events| ==> events[i] < events[j])
    && (forall k :: 0 <= k < |events| ==> events[k] < |schedule| && Thrown(agents, schedule[events[k]], failures[k]))
    && (forall i :: 0 <= i < |schedule| && (schedule[i].ending.Raised? || schedule[i].ending.Escaped?) ==> i in events)
  }

  lemma {:induction false} ThrowNothing<V>(agents: seq<AgentName>, front: seq<Event<V>>, last: Event<V>,
                                           events: seq<nat>, failures: seq<Failure>)
    requires ThrownInOrder(agents, front, events, failures) && !last.ending.Raised? && !last.ending.Escaped?
    ensures ThrownInOrder(agents, front + [last], events, failures)
  {
    hide Thrown;
  }

  lemma {:induction false} ThrowOne<V>(agents: seq<AgentName>, front: seq<Event<V>>, last: Event<V>,
                                       events: seq<nat>, failures: seq<Failure>,
                                       failure: Failure)
    requires ThrownInOrder(agents, front, events, failures) && Thrown(agents, last, failure)
    ensures ThrownInOrder(agents, front + [last], events + [|front|], failures + [failure])
  {
    hide Thrown;
  }

  lemma {:induction false} ThrowNext<V>(agents: seq<AgentName>, front: seq<Event<V>>, last: Event<V>,
                                        events: seq<nat>, failures: seq<Failure>)
    returns (more: seq<nat>)
    requires last.branch < |agents| && ThrownInOrder(agents, front, events, failures)
    ensures ThrownInOrder(agents, front + [last], more, failures + RunAttributed(agents[last.branch], last.ending))
  {
    var thrown := RunAttributed(agents[last.branch], last.ending);
    if last.ending.Raised? || last.ending.Escaped? {
      assert thrown == [thrown[0]] && Thrown(agents, last, thrown[0]);
      hide RunAttributed, Thrown, ThrownInOrder;
      ThrowOne(agents, front, last, events, failures, thrown[0]);
      more := events + [|front|];
    } else {
      assert failures + thrown == failures;
      hide RunAttributed, Thrown, ThrownInOrder;
      ThrowNothing(agents, front, last, events, failures);
      more := events;
    }
  }

  /** The errors collected are what the failing branches threw, in the order in which they ended. */
  lemma {:induction false} ErrorsMeaning<V>(agents: seq<AgentName>, schedule: seq<Event<V>>) returns (events: seq<nat>)
    requires forall e :: e in schedule ==> e.branch < |agents|
    ensures ThrownInOrder(agents, schedule, events, Replay(agents, schedule).errors)
  {
    events := [];
    if schedule != [] {
      var front, last := schedule[..|schedule| - 1], schedule[|schedule| - 1];
      events := ErrorsMeaning(agents, front);
      hide ThrownInOrder, RunAttributed;
      assert schedule == front + [last];
      events := ThrowNext(agents, front, last, events, Replay(agents, front).errors);
    }
  }

  /** An execution fails exactly when something was thrown, with exactly that, in order. */
  lemma {:induction false} GroupMeaning<V>(agents: seq<AgentName>, schedule: seq<Event<V>>) returns (events: seq<nat>)
    requires forall e :: e in schedule ==> e.branch < |agents|
    ensures Execute(agents, schedule).FailureGroup? <==> events != []
    ensures ThrownInOrder(agents, schedule, events,
                          if Execute(agents, schedule).FailureGroup? then Execute(agents, schedule).members else [])
  {
    events := ErrorsMeaning(agents, schedule);
  }

  lemma ReplayComplete<V>(agents: seq<AgentName>, schedule: seq<Event<V>>, endings: seq<Ending<V>>)
    requires |agents| == |endings| && EndedAs(schedule, endings)
    ensures Replay(agents, schedule).tasks == AllFinished(endings)
    ensures multiset(Replay(agents, schedule).errors) == multiset(Exceptions(agents, AllFinished(endings)))
  {
    ReplayInvariant(agents, schedule);
    forall i | 0 <= i < |endings| ensures Replay(agents, schedule).tasks[i] == Finished(endings[i]) {
      assert Ends(schedule, i);
    }
  }

  predicate Fails<V>(ending: Ending<V>) {
    ending.Raised? || ending.Escaped?
  }

  lemma {:induction false} ExceptionsFront<V>(agents: seq<AgentName>, endings: seq<Ending<V>>)
    requires |agents| == |endings| > 0
    ensures var k := |endings| - 1;
            Exceptions(agents, AllFinished(endings)) == [] <==>
              Exceptions(agents[..k], AllFinished(endings[..k])) == [] && !Fails(endings[k])
  {
    var k := |endings| - 1;
    assert AllFinished(endings)[..k] == AllFinished(endings[..k]);
    assert RunAttributed(agents[k], endings[k]) == [] <==> !Fails(endings[k]);
  }

  ghost predicate NoneFails<V>(endings: seq<Ending<V>>) {
    forall ending :: ending in endings ==> !Fails(ending)
  }

  lemma {:induction false} NoneFailsLast<V>(endings: seq<Ending<V>>)
    requires endings != []
    ensures var k := |endings| - 1; NoneFails(endings) <==> NoneFails(endings[..k]) && !Fails(endings[k])
  {
    hide Fails;
    var k := |endings| - 1;
    assert endings == endings[..k] + [endings[k]];
  }

  lemma {:induction false} ExceptionsMeaning<V>(agents: seq<AgentName>, endings: seq<Ending<V>>)
    requires |agents| == |endings|
    ensures Exceptions(agents, AllFinished(endings)) == [] <==> NoneFails(endings)
  {
    if endings != [] {
      var k := |endings| - 1;
      ExceptionsMeaning(agents[..k], endings[..k]);
      ExceptionsFront(agents, endings);
      NoneFailsLast(endings);
      hide *;
    }
  }

  lemma {:induction false} GatherMeaning<V>(endings: seq<Ending<V>>)
    ensures Gather(AllFinished(endings)).Some? <==> forall ending :: ending in endings ==> ending.Returned?
    ensures Gather(AllFinished(endings)).Some? ==>
              endings == Map(value => Returned(value), Gather(AllFinished(endings)).value)
  {
    if endings != [] {
      var front, last := endings[..|endings| - 1], endings[|endings| - 1];
      GatherMeaning(front);
      assert endings == front + [last];
      assert AllFinished(endings)[..|front|] == AllFinished(front);
    }
  }

  /** What the caller of `execute` sees, told only how each branch ended. */
  ghost predicate Sees<V>(agents: seq<AgentName>, endings: seq<Ending<V>>, execution: Execution<V>)
    requires |agents| == |endings|
  {
    if exists ending :: ending in endings && Fails(ending) then
      && execution.FailureGroup?
      && multiset(execution.members) == multiset(Exceptions(agents, AllFinished(endings)))
    else if exists ending :: ending in endings && ending.Cancelled? then execution == Interrupted
    else execution.Success? && endings == Map(value => Returned(value), execution.values)
  }

  /** Under every interleaving: results in branch order if all return; otherwise exactly the failing branches' exceptions. */
  lemma ExecutionMeaning<V>(agents: seq<AgentName>, schedule: seq<Event<V>>, endings: seq<Ending<V>>)
    requires |agents| == |endings| && EndedAs(schedule, endings)
    ensures Sees(agents, endings, Execute(agents, schedule))
  {
    ReplayComplete(agents, schedule, endings);
    ExceptionsMeaning(agents, endings);
    GatherMeaning(endings);
    var group := Replay(agents, schedule);
    assert group.errors == [] <==> Exceptions(agents, AllFinished(endings)) == [] by {
      assert |group.errors| == |multiset(group.errors)|;
      assert |Exceptions(agents, AllFinished(endings))| == |multiset(Exceptions(agents, AllFinished(endings)))|;
    }
  }

  // ---------- ordinary failures ----------

  /** No branch lets anything but an ordinary exception or a cancellation out. */
  ghost predicate Ordinary<V>(endings: seq<Ending<V>>) {
    forall ending :: ending in endings ==> !ending.Escaped?
  }

  /** The raising branches' own failures, in branch order. */
  function Raising<V>(agents: seq<AgentName>, endings: seq<Ending<V>>): seq<AgentFailure>
    requires |agents| == |endings|
  {
    if endings == [] then []
    else
      var last := |endings| - 1;
      Raising(agents[..last], endings[..last]) +
      if endings[last].Raised? then [AgentFailure(agents[last], endings[last].cause)] else []
  }

  lemma {:induction false} OrdinaryExceptions<V>(agents: seq<AgentName>, endings: seq<Ending<V>>)
    requires |agents| == |endings| && Ordinary(endings)
    ensures Exceptions(agents, AllFinished(endings)) == Map(AsLeaf, Raising(agents, endings))
  {
    if endings != [] {
      var front, last := endings[..|endings| - 1], endings[|endings| - 1];
      assert endings == front + [last];
      OrdinaryExceptions(agents[..|front|], front);
      assert AllFinished(endings)[..|front|] == AllFinished(front);
    }
  }

  lemma {:induction false} LeavesOfLeaves(failures: seq<AgentFailure>)
    ensures Leaves(Map(AsLeaf, failures)) == Map(AsLeaf, failures)
  {
    if failures != [] {
      var front, last := failures[..|failures| - 1], failures[|failures| - 1];
      LeavesOfLeaves(front);
      LeavesConcat(Map(AsLeaf, front), [AsLeaf(last)]);
      LeavesOne(AsLeaf(last));
      hide Leaves;
      assert Map(AsLeaf, failures) == Map(AsLeaf, front) + [AsLeaf(last)];
    }
  }

  /** With ordinary failures only, extraction yields exactly the raising branches, each once, under its own agent name. */
  lemma RaisingBranchesExtracted<V>(agents: seq<AgentName>, schedule: seq<Event<V>>, endings: seq<Ending<V>>)
    requires |agents| == |endings| && EndedAs(schedule, endings) && Ordinary(endings)
    requires exists ending :: ending in endings && ending.Raised?
    ensures Execute(agents, schedule).FailureGroup?
    ensures Extract(Execute(agents, schedule).members).Ok?
    ensures multiset(Extract(Execute(agents, schedule).members).value) == multiset(Raising(agents, endings))
  {
    ExecutionMeaning(agents, schedule, endings);
    assert exists ending :: ending in endings && Fails(ending);
    var members := Execute(agents, schedule).members;
    OrdinaryExceptions(agents, endings);
    var raised := Map(AsLeaf, Raising(agents, endings));
    ExtractReorder(raised, members);
    LeavesOfLeaves(Raising(agents, endings));
    ExtractMeaning(raised);
    AsLeafInjective(Extract(raised).value, Raising(agents, endings));
  }

  /** A failure is reported for a branch exactly when that branch raised it. */
  lemma {:induction false} RaisingMeaning<V>(agents: seq<AgentName>, endings: seq<Ending<V>>, failure: AgentFailure)
    requires |agents| == |endings|
    ensures failure in Raising(agents, endings) <==>
            exists i :: 0 <= i < |endings| && endings[i] == Raised(failure.cause) && agents[i] == failure.agent
  {
    if endings != [] {
      var last := |endings| - 1;
      RaisingMeaning(agents[..last], endings[..last], failure);
      assert endings == endings[..last] + [endings[last]];
      assert agents == agents[..last] + [agents[last]];
    }
  }
}
