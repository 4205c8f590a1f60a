/** Agent failures: flattening an exception group, naming each cause, and picking the one to act on. */
module AgentFailures {
  import opened Wrappers

  datatype AgentName =
    | RegulatoryIntelligence
    | PricingAndSales
    | WeatherAndRenewableForecast
    | HydroResources
    | GenerationAvailability
    | NewsIntelligence
    | MarketMonitoring
    | ConsumerLoadForecast
    | DamPriceForecast
    | PortfolioAndRisk
    | TradingStrategy
    | BillingAndSettlement
    | ChiefOrchestrator

  /** What an agent raised: an application error, which has a published code, or anything else. */
  datatype Cause = Application(error: AppError) | Unexpected

  /** An exception as a handler meets it. Groups nest to any depth. */
  datatype Failure =
    | Attributed(agent: AgentName, cause: Cause)
    | Unattributed
    | Group(members: seq<Failure>)

  datatype AgentFailure = AgentFailure(agent: AgentName, cause: Cause)

  // ---------- flattening ----------

  function MemberLeaves(member: Failure): seq<Failure>
    decreases member
  {
    if member.Group? then Leaves(member.members) else [member]
  }

  /** Every exception that is not a group, depth first and left to right. */
  function Leaves(members: seq<Failure>): seq<Failure>
    decreases members
  {
    if members == [] then []
    else Leaves(members[..|members| - 1]) + MemberLeaves(members[|members| - 1])
  }

  predicate AllAttributed(leaves: seq<Failure>) {
    forall leaf :: leaf in leaves ==> leaf.Attributed?
  }

  /** What one member of a group contributes. */
  function ExtractMember(member: Failure): Result<seq<AgentFailure>, AppError>
    decreases member
  {
    match member
    case Group(inner) => Extract(inner)
    case Attributed(agent, cause) => Ok([AgentFailure(agent, cause)])
    case Unattributed => Err(InvalidRequest)
  }

  function Extract(members: seq<Failure>): Result<seq<AgentFailure>, AppError>
    decreases members
  {
    if members == [] then Ok([])
    else
      var earlier :- Extract(members[..|members| - 1]);
      var more :- ExtractMember(members[|members| - 1]);
      Ok(earlier + more)
  }

  lemma {:induction false} ExtractStops(members: seq<Failure>, i: nat)
    requires i <= |members| && Extract(members[..i]).Err?
    ensures Extract(members) == Extract(members[..i])
  {
    if i < |members| {
      assert members[..|members| - 1][..i] == members[..i];
      ExtractStops(members[..|members| - 1], i);
    } else {
      assert members[..i] == members;
    }
  }

  method ExtractAgentFailures(members: seq<Failure>) returns (r: Result<seq<AgentFailure>, AppError>)
    ensures r == Extract(members)
    decreases members
  {
    var extracted: seq<AgentFailure> := [];
    for i := 0 to |members|
      invariant Extract(members[..i]) == Ok(extracted)
    {
      assert members[..i + 1][..i] == members[..i];
      match members[i] {
        case Group(inner) =>
          var more := ExtractAgentFailures(inner);
          if more.Err? {
            ExtractStops(members, i + 1);
            return more;
          }
          extracted := extracted + more.value;
        case Attributed(agent, cause) =>
          extracted := extracted + [AgentFailure(agent, cause)];
        case Unattributed =>
          ExtractStops(members, i + 1);
          return Err(InvalidRequest);
      }
    }
    assert members[..|members|] == members;
    r := Ok(extracted);
  }

  function AsLeaf(failure: AgentFailure): Failure {
    Attributed(failure.agent, failure.cause)
  }

  /** What extracting `members` returns, given that their leaves are `leaves`. */
  ghost predicate Extracts(r: Result<seq<AgentFailure>, AppError>, leaves: seq<Failure>) {
    && (r.Ok? <==> AllAttributed(leaves))
    && (r.Ok? ==> Map(AsLeaf, r.value) == leaves)
    && (r.Err? ==> r == Err(InvalidRequest))
  }

  lemma ExtractsBoth(front: seq<AgentFailure>, left: seq<Failure>, last: Result<seq<AgentFailure>, AppError>, right: seq<Failure>)
    requires Extracts(Ok(front), left) && Extracts(last, right)
    ensures Extracts(if last.Ok? then Ok(front + last.value) else last, left + right)
  {
    assert AllAttributed(left + right) <==> AllAttributed(right) by {
      forall leaf | leaf in right ensures leaf in left + right {
      }
    }
  }

  lemma ExtractsNone(r: Result<seq<AgentFailure>, AppError>, left: seq<Failure>, right: seq<Failure>)
    requires Extracts(r, left) && r.Err?
    ensures Extracts(r, left + right)
  {
    var leaf :| leaf in left && !leaf.Attributed?;
    assert leaf in left + right;
  }

  /** Extraction returns exactly the leaves, in depth-first order, or refuses because one is unattributed. */
  lemma {:induction false} ExtractMeaning(members: seq<Failure>)
    ensures Extracts(Extract(members), Leaves(members))
    decreases members
  {
    if members != [] {
      var front, last := members[..|members| - 1], members[|members| - 1];
      ExtractMeaning(front);
      if Extract(front).Err? {
        ExtractsNone(Extract(front), Leaves(front), MemberLeaves(last));
      } else {
        ExtractMemberMeaning(last);
        ExtractsBoth(Extract(front).value, Leaves(front), ExtractMember(last), MemberLeaves(last));
      }
    }
  }

  lemma {:induction false} ExtractMemberMeaning(member: Failure)
    ensures Extracts(ExtractMember(member), MemberLeaves(member))
    decreases member
  {
    if member.Group? {
      ExtractMeaning(member.members);
    }
  }

  lemma {:induction false} LeavesConcat(a: seq<Failure>, b: seq<Failure>)
    ensures Leaves(a + b) == Leaves(a) + Leaves(b)
    decreases |b|
  {
    if b == [] {
      assert a + b == a;
    } else {
      var front, last := b[..|b| - 1], b[|b| - 1];
      LeavesConcat(a, front);
      assert (a + b)[..|a + b| - 1] == a + front;
      assert Leaves(a) + Leaves(front) + MemberLeaves(last) == Leaves(a) + (Leaves(front) + MemberLeaves(last));
    }
  }

  lemma LeavesOne(member: Failure)
    ensures Leaves([member]) == MemberLeaves(member)
  {
    assert [member][..0] == [];
  }

  lemma LeavesWithout(a: seq<Failure>, member: Failure, b: seq<Failure>)
    ensures multiset(Leaves(a + [member] + b)) == multiset(Leaves(a + b)) + multiset(MemberLeaves(member))
  {
    LeavesConcat(a + [member], b);
    LeavesConcat(a, [member]);
    LeavesConcat(a, b);
    LeavesOne(member);
  }

  lemma LeavesRemove(members: seq<Failure>, k: nat)
    requires k < |members|
    ensures multiset(Leaves(members)) == multiset(Leaves(RemoveAt(members, k))) + multiset(MemberLeaves(members[k]))
  {
    var a, member, b := members[..k], members[k], members[k + 1..];
    assert Leaves(members) == Leaves(a + [member] + b) by {
      assert members == a + [member] + b;
    }
    assert RemoveAt(members, k) == a + b;
    LeavesWithout(a, member, b);
  }

  /** A group's leaves, as a bag, do not depend on the order its members arrived in. */
  lemma {:induction false} LeavesReorder(a: seq<Failure>, b: seq<Failure>)
    requires multiset(a) == multiset(b)
    ensures multiset(Leaves(a)) == multiset(Leaves(b))
    decreases |a|
  {
    assert |a| == |multiset(a)| == |multiset(b)| == |b|;
    if a != [] {
      assert a[0] in multiset(b);
      var k :| 0 <= k < |b| && b[k] == a[0];
      LeavesReorder(RemoveAt(a, 0), RemoveAt(b, k));
      LeavesRemove(a, 0);
      LeavesRemove(b, k);
    }
  }

  /** Whether extraction accepts a group, and how many failures it finds, do not depend on member order. */
  lemma ExtractReorder(a: seq<Failure>, b: seq<Failure>)
    requires multiset(a) == multiset(b)
    ensures if Extract(a).Err? then Extract(b) == Extract(a)
            else Extract(b).Ok? && multiset(Extract(a).value) == multiset(Extract(b).value)
  {
    LeavesReorder(a, b);
    ExtractMeaning(a);
    ExtractMeaning(b);
    assert forall leaf :: (leaf in Leaves(a) <==> leaf in multiset(Leaves(a))) && (leaf in Leaves(b) <==> leaf in multiset(Leaves(b)));
    if Extract(a).Ok? {
      AsLeafInjective(Extract(a).value, Extract(b).value);
    }
  }

  function FromLeaf(leaf: Failure): AgentFailure {
    if leaf.Attributed? then AgentFailure(leaf.agent, leaf.cause) else AgentFailure(ChiefOrchestrator, Unexpected)
  }

  lemma AsLeafInjective(s: seq<AgentFailure>, t: seq<AgentFailure>)
    requires multiset(Map(AsLeaf, s)) == multiset(Map(AsLeaf, t))
    ensures multiset(s) == multiset(t)
  {
    MapMultiset(FromLeaf, Map(AsLeaf, s), Map(AsLeaf, t));
    assert Map(FromLeaf, Map(AsLeaf, s)) == s && Map(FromLeaf, Map(AsLeaf, t)) == t;
  }
}
