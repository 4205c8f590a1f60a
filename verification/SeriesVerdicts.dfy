/** What series validation decides on each candidate, told without its loops: kept, a duplicate, or off the grid. */
module SeriesVerdicts {
  import opened Wrappers
  import opened Ordering
  import opened SeriesValidation
  import SeriesGaps

  /** Another candidate observes the same consumer at the same instant. */
  ghost predicate HasTwin(candidates: seq<Candidate>, i: nat)
    requires i < |candidates|
  {
    exists j :: 0 <= j < |candidates| && j != i
                && candidates[j].record.consumerId == candidates[i].record.consumerId
                && candidates[j].record.timestamp == candidates[i].record.timestamp
  }

  /** The instant is a whole number of intervals away from the anchor. */
  ghost predicate OnGrid(grid: Grid, t: int) {
    exists k :: t == grid.anchor + grid.interval * k
  }

  ghost predicate OffGrid(grid: Option<Grid>, t: int) {
    grid.Some? && !OnGrid(grid.value, t)
  }

  /** What a candidate is refused for, if anything; a duplicate is called that even when it is off the grid. */
  ghost function Verdict(candidates: seq<Candidate>, grid: Option<Grid>, i: nat): Option<IssueCode>
    requires i < |candidates|
  {
    if HasTwin(candidates, i) then Some(DuplicateTimestamp)
    else if OffGrid(grid, candidates[i].record.timestamp) then Some(IntervalMisaligned)
    else None
  }

  lemma {:induction false} OnGridMeaning(grid: Grid, t: int)
    ensures OnGrid(grid, t) <==> Aligned(grid, t)
  {
    if Aligned(grid, t) {
      SeriesGaps.AlignedForm(grid, t);
    }
    if k :| t == grid.anchor + grid.interval * k {
      SeriesGaps.MultipleAligned(grid, k);
    }
  }

  lemma {:induction false} VerdictMeaning(candidates: seq<Candidate>, grid: Option<Grid>, i: nat)
    requires i < |candidates|
    ensures HasTwin(candidates, i) <==> IsDuplicate(candidates, i)
    ensures OffGrid(grid, candidates[i].record.timestamp) <==> Misaligned(grid, candidates[i])
  {
    if grid.Some? {
      OnGridMeaning(grid.value, candidates[i].record.timestamp);
    }
  }

  /** `indexes` are, in order, exactly the members of `chosen`. */
  ghost predicate Enumerates(indexes: seq<nat>, chosen: set<nat>) {
    && (forall i, j :: 0 <= i < j < |indexes| ==> indexes[i] < indexes[j])
    && (forall k :: 0 <= k < |indexes| ==> indexes[k] in chosen)
    && (forall i :: i in chosen ==> i in indexes)
  }

  lemma {:induction false} EnumerateMore(indexes: seq<nat>, chosen: set<nat>, n: nat)
    requires Enumerates(indexes, chosen) && forall i :: i in chosen ==> i < n
    ensures Enumerates(indexes + [n], chosen + {n})
  {
  }

  ghost function KeptAmong(candidates: seq<Candidate>, grid: Option<Grid>, n: nat): set<nat>
    requires n <= |candidates|
  {
    set i: nat | i < n && Verdict(candidates, grid, i) == None
  }

  ghost function RefusedAmong(candidates: seq<Candidate>, grid: Option<Grid>, n: nat): set<nat>
    requires n <= |candidates|
  {
    set i: nat | i < n && Verdict(candidates, grid, i) != None
  }

  /** The survivors among the first `n` candidates are those at `kept`, the issues those of the ones at `refused`. */
  ghost predicate Explains(candidates: seq<Candidate>, grid: Option<Grid>, n: nat, kept: seq<nat>, refused: seq<nat>,
                           valid: seq<Candidate>, issues: seq<Issue>)
    requires n <= |candidates|
  {
    && Enumerates(kept, KeptAmong(candidates, grid, n)) && Enumerates(refused, RefusedAmong(candidates, grid, n))
    && |valid| == |kept| && |issues| == |refused|
    && (forall k :: 0 <= k < |kept| ==> kept[k] < n && valid[k] == candidates[kept[k]])
    && (forall k :: 0 <= k < |refused| ==>
          && refused[k] < n && Verdict(candidates, grid, refused[k]).Some?
          && issues[k] == Issue(candidates[refused[k]].position, Verdict(candidates, grid, refused[k]).value))
  }

  lemma {:induction false} ExplainKept(candidates: seq<Candidate>, grid: Option<Grid>, n: nat, kept: seq<nat>, refused: seq<nat>,
                    valid: seq<Candidate>, issues: seq<Issue>)
    requires n < |candidates| && Explains(candidates, grid, n, kept, refused, valid, issues)
    requires Verdict(candidates, grid, n) == None
    ensures Explains(candidates, grid, n + 1, kept + [n], refused, valid + [candidates[n]], issues)
  {
    hide Verdict;
    assert KeptAmong(candidates, grid, n + 1) == KeptAmong(candidates, grid, n) + {n};
    assert RefusedAmong(candidates, grid, n + 1) == RefusedAmong(candidates, grid, n);
    EnumerateMore(kept, KeptAmong(candidates, grid, n), n);
    hide Enumerates, KeptAmong, RefusedAmong;
  }

  lemma {:induction false} ExplainRefused(candidates: seq<Candidate>, grid: Option<Grid>, n: nat, kept: seq<nat>,
                                          refused: seq<nat>,
                       valid: seq<Candidate>, issues: seq<Issue>, issue: Issue)
    requires n < |candidates| && Explains(candidates, grid, n, kept, refused, valid, issues)
    requires Verdict(candidates, grid, n) == Some(issue.code) && issue.position == candidates[n].position
    ensures Explains(candidates, grid, n + 1, kept, refused + [n], valid, issues + [issue])
  {
    hide Verdict;
    assert RefusedAmong(candidates, grid, n + 1) == RefusedAmong(candidates, grid, n) + {n};
    assert KeptAmong(candidates, grid, n + 1) == KeptAmong(candidates, grid, n);
    EnumerateMore(refused, RefusedAmong(candidates, grid, n), n);
    hide Enumerates, KeptAmong, RefusedAmong;
  }

  lemma {:induction false} PrefixExplained(candidates: seq<Candidate>, grid: Option<Grid>,
                                           n: nat) returns (kept: seq<nat>, refused: seq<nat>)
    requires n <= |candidates|
    ensures Explains(candidates, grid, n, kept, refused, Survivors(candidates, grid, n), Issues(candidates, grid, n))
  {
    if n == 0 {
      kept, refused := [], [];
    } else {
      kept, refused := PrefixExplained(candidates, grid, n - 1);
      var valid, issues := Survivors(candidates, grid, n - 1), Issues(candidates, grid, n - 1);
      VerdictMeaning(candidates, grid, n - 1);
      hide Explains, IsDuplicate, Misaligned, HasTwin, OffGrid;
      if Verdict(candidates, grid, n - 1) == None {
        ExplainKept(candidates, grid, n - 1, kept, refused, valid, issues);
        kept := kept + [n - 1];
      } else {
        var issue := Issue(candidates[n - 1].position, Verdict(candidates, grid, n - 1).value);
        ExplainRefused(candidates, grid, n - 1, kept, refused, valid, issues, issue);
        refused := refused + [n - 1];
      }
    }
  }

  /**
   * The survivors are the candidates without a verdict, in source order; and each other one has one issue,
   * in source order, at its source position and under its verdict.
   */
  lemma {:induction false} ValidationMeaning(candidates: seq<Candidate>, grid: Option<Grid>) returns (kept: seq<nat>,
                                             refused: seq<nat>)
    ensures var r := Validated(candidates, grid);
            Explains(candidates, grid, |candidates|, kept, refused, r.valid, r.issues)
  {
    kept, refused := PrefixExplained(candidates, grid, |candidates|);
  }
}
