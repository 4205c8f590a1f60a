/** The gaps of a validated series, told by its records alone: what is missing, how much, and in which order. */
module GapReports {
  import opened Wrappers
  import opened Ordering
  import opened SeriesValidation
  import opened SeriesGaps
  import opened SeriesVerdicts

  function RecordsOf(candidates: seq<Candidate>): seq<Record> {
    Map((c: Candidate) => c.record, candidates)
  }

  ghost predicate Observed(records: seq<Record>, consumer: string, t: int) {
    exists r :: r in records && r.consumerId == consumer && r.timestamp == t
  }

  /** A grid instant strictly inside what is observed of the consumer, but not observed itself. */
  ghost predicate Unobserved(grid: Grid, records: seq<Record>, consumer: string, t: int) {
    && OnGrid(grid, t) && !Observed(records, consumer, t)
    && exists first, last :: Observed(records, consumer, first) && Observed(records, consumer, last) && first < t < last
  }

  ghost predicate Missing(grid: Grid, gaps: seq<Gap>, consumer: string, t: int) {
    exists gap :: gap in gaps && gap.consumerId == consumer && InGap(grid, gap, t)
  }

  /** The consumer is observed, first at `first` and last at `last`. */
  ghost predicate Spans(records: seq<Record>, consumer: string, first: int, last: int) {
    && Observed(records, consumer, first) && Observed(records, consumer, last)
    && forall t :: Observed(records, consumer, t) ==> first <= t <= last
  }

  function RecordsFor(records: seq<Record>, consumer: string): seq<Record> {
    Filter((r: Record) => r.consumerId == consumer, records)
  }

  /** Observed and missing instants are together all the grid instants from `first` to `last`. */
  ghost predicate Counted(grid: Grid, records: seq<Record>, gaps: seq<Gap>, consumer: string, first: int, last: int) {
    |RecordsFor(records, consumer)| + TotalMissing(GapsWith(gaps, consumer)) == Steps(grid, first, last) + 1
  }

  ghost predicate Runs(grid: Grid, gap: Gap) {
    gap.missingCount >= 1 && gap.last == gap.first + grid.interval * (gap.missingCount - 1)
  }

  /** What is missing and how much, for every consumer; each gap runs from its first to its last instant. */
  ghost predicate Covers(grid: Grid, records: seq<Record>, gaps: seq<Gap>) {
    && (forall gap :: gap in gaps ==> Runs(grid, gap))
    && (forall consumer, t :: Missing(grid, gaps, consumer, t) <==> Unobserved(grid, records, consumer, t))
    && (forall consumer, first, last :: Spans(records, consumer, first, last) ==>
          Counted(grid, records, gaps, consumer, first, last))
  }

  /** By consumer, and within one by time. */
  ghost predicate ReportedInOrder(gaps: seq<Gap>) {
    forall i, j :: 0 <= i < j < |gaps| ==>
      && StringLe(gaps[i].consumerId, gaps[j].consumerId)
      && (gaps[i].consumerId == gaps[j].consumerId ==> gaps[i].last < gaps[j].first)
  }

  // ---------- candidates and records ----------

  lemma {:induction false} TimesAreObserved(candidates: seq<Candidate>, consumer: string)
    ensures forall t :: t in TimesOf(candidates, consumer) <==> Observed(RecordsOf(candidates), consumer, t)
  {
    TimesMembers(candidates, consumer);
    var records := RecordsOf(candidates);
    forall t ensures t in TimesOf(candidates, consumer) <==> Observed(records, consumer, t) {
      if c :| c in candidates && KeyOf(c.record) == (consumer, t) {
        var i :| 0 <= i < |candidates| && candidates[i] == c;
        assert records[i] == c.record && records[i] in records;
      }
      if r :| r in records && r.consumerId == consumer && r.timestamp == t {
        var i :| 0 <= i < |records| && records[i] == r;
        assert candidates[i] in candidates && KeyOf(candidates[i].record) == (consumer, t);
      }
    }
  }

  lemma {:induction false} TimesCount(candidates: seq<Candidate>, consumer: string)
    ensures |TimesOf(candidates, consumer)| == |RecordsFor(RecordsOf(candidates), consumer)|
  {
    if candidates != [] {
      var front, last := candidates[..|candidates| - 1], candidates[|candidates| - 1];
      TimesCount(front, consumer);
      var records := RecordsOf(candidates);
      assert records[..|records| - 1] == RecordsOf(front) && records[|records| - 1] == last.record;
    }
  }

  lemma {:induction false} GapsWithMembers(gaps: seq<Gap>, consumer: string)
    ensures forall gap :: gap in GapsWith(gaps, consumer) <==> gap in gaps && gap.consumerId == consumer
  {
    if gaps != [] {
      GapsWithMembers(gaps[..|gaps| - 1], consumer);
      assert gaps == gaps[..|gaps| - 1] + [gaps[|gaps| - 1]];
    }
  }

  lemma {:induction false} Earliest(times: seq<int>) returns (first: int, last: int)
    requires times != []
    ensures Extremes(times, first, last)
  {
    var front, t := times[..|times| - 1], times[|times| - 1];
    assert times == front + [t];
    if front == [] {
      first, last := t, t;
    } else {
      first, last := Earliest(front);
      first, last := if t < first then t else first, if last < t then t else last;
    }
  }

  // ---------- the three laws ----------

  lemma {:induction false} MissingIsUnobserved(candidates: seq<Candidate>, grid: Grid, consumer: string, t: int)
    ensures var r := Validated(candidates, Some(grid));
            Missing(grid, r.gaps, consumer, t) <==> Unobserved(grid, RecordsOf(r.valid), consumer, t)
  {
    var r := Validated(candidates, Some(grid));
    var times, records := TimesOf(r.valid, consumer), RecordsOf(r.valid);
    TimesAreObserved(r.valid, consumer);
    GapsWithMembers(r.gaps, consumer);
    OnGridMeaning(grid, t);
    DetectedForConsumer(r.valid, grid, consumer);
    assert Missing(grid, r.gaps, consumer, t) <==> Reported(grid, GapsWith(r.gaps, consumer), t);
    if times == [] {
      assert ConsumerGaps(r.valid, grid, consumer) == [];
    } else {
      var first, last := Earliest(times);
      GapsAreComplement(candidates, grid, consumer, first, last, t);
      hide Validated, TimesOf, GapsWith, RecordsOf;
      assert Observed(records, consumer, first) && Observed(records, consumer, last);
      assert t in times <==> Observed(records, consumer, t);
      forall u | Observed(records, consumer, u) ensures first <= u <= last {
        assert u in times;
      }
    }
  }

  lemma {:induction false} MissingIsCounted(candidates: seq<Candidate>, grid: Grid, consumer: string, first: int, last: int)
    requires Spans(RecordsOf(Validated(candidates, Some(grid)).valid), consumer, first, last)
    ensures var r := Validated(candidates, Some(grid));
            Counted(grid, RecordsOf(r.valid), r.gaps, consumer, first, last)
  {
    var r := Validated(candidates, Some(grid));
    TimesAreObserved(r.valid, consumer);
    TimesCount(r.valid, consumer);
    hide Validated, TimesOf, RecordsOf, Steps;
    forall t | t in TimesOf(r.valid, consumer) ensures first <= t <= last {
      assert Observed(RecordsOf(r.valid), consumer, t);
    }
    GapsCount(candidates, grid, consumer, first, last);
  }

  lemma {:induction false} GapRuns(candidates: seq<Candidate>, grid: Grid, gap: Gap)
    requires gap in Validated(candidates, Some(grid)).gaps
    ensures Runs(grid, gap)
  {
    hide Validated;
    GapsWithMembers(Validated(candidates, Some(grid)).gaps, gap.consumerId);
    GapsAreMaximal(candidates, grid, gap.consumerId, gap);
  }

  /** With a grid, exactly the unobserved grid instants are reported, with their number. */
  lemma {:induction false} CoverageOn(candidates: seq<Candidate>, grid: Grid)
    ensures Covers(grid, RecordsOf(Validated(candidates, Some(grid)).valid), Validated(candidates, Some(grid)).gaps)
  {
    var records, gaps := RecordsOf(Validated(candidates, Some(grid)).valid), Validated(candidates, Some(grid)).gaps;
    hide Validated, Missing, Unobserved, Spans, RecordsFor, RecordsOf, Runs, Counted;
    forall gap | gap in gaps ensures Runs(grid, gap) {
      GapRuns(candidates, grid, gap);
    }
    forall consumer, t ensures Missing(grid, gaps, consumer, t) <==> Unobserved(grid, records, consumer, t) {
      MissingIsUnobserved(candidates, grid, consumer, t);
    }
    forall consumer, first, last | Spans(records, consumer, first, last) ensures Counted(grid, records, gaps, consumer, first, last) {
      MissingIsCounted(candidates, grid, consumer, first, last);
    }
  }

  /** Without a grid nothing is reported. */
  lemma {:induction false} CoverageMeaning(candidates: seq<Candidate>, grid: Option<Grid>)
    ensures var r := Validated(candidates, grid);
            match grid
            case None => r.gaps == []
            case Some(g) => Covers(g, RecordsOf(r.valid), r.gaps)
  {
    if grid.Some? {
      CoverageOn(candidates, grid.value);
      hide Validated, Covers, RecordsOf;
    }
  }

  // ---------- the order of the report ----------

  ghost predicate ConsumersAscend(gaps: seq<Gap>) {
    forall i, j :: 0 <= i < j < |gaps| ==> StringLe(gaps[i].consumerId, gaps[j].consumerId)
  }

  lemma {:induction false} ConsumersAppend(before: seq<Gap>, own: seq<Gap>, front: seq<string>, last: string)
    requires Sorted(StringLe, front + [last]) && ConsumersAscend(before)
    requires forall i :: 0 <= i < |before| ==> before[i].consumerId in front
    requires forall i :: 0 <= i < |own| ==> own[i].consumerId == last
    ensures ConsumersAscend(before + own)
    ensures forall i :: 0 <= i < |before + own| ==> (before + own)[i].consumerId in front + [last]
  {
    StringOrder();
    hide StringLe;
    forall n | n in front ensures StringLe(n, last) {
      var k :| 0 <= k < |front| && front[k] == n;
      assert StringLe((front + [last])[k], (front + [last])[|front|]);
    }
  }

  lemma {:induction false} GapsByConsumer(candidates: seq<Candidate>, grid: Grid, consumers: seq<string>)
    requires Sorted(StringLe, consumers)
    ensures ConsumersAscend(GapsFor(candidates, grid, consumers))
    ensures forall i :: 0 <= i < |GapsFor(candidates, grid, consumers)| ==>
              GapsFor(candidates, grid, consumers)[i].consumerId in consumers
  {
    if consumers != [] {
      var front, last := consumers[..|consumers| - 1], consumers[|consumers| - 1];
      GapsByConsumer(candidates, grid, front);
      GapOwner(last, Sort(IntLe(), TimesOf(candidates, last)), grid);
      assert consumers == front + [last];
      hide GapsOf, TimesOf, Sort, ConsumersAscend, StringLe;
      ConsumersAppend(GapsFor(candidates, grid, front), ConsumerGaps(candidates, grid, last), front, last);
    }
  }

  lemma {:induction false} SameConsumerOrder(gaps: seq<Gap>, i: nat, j: nat)
    requires i < j < |gaps| && gaps[i].consumerId == gaps[j].consumerId
    requires InOrder(GapsWith(gaps, gaps[i].consumerId))
    ensures gaps[i].last < gaps[j].first
  {
    var n, consumer := |gaps| - 1, gaps[i].consumerId;
    var front := GapsWith(gaps[..n], consumer);
    assert GapsWith(gaps, consumer) == front + if gaps[n].consumerId == consumer then [gaps[n]] else [];
    if j < n {
      assert forall a :: 0 <= a < |front| ==> GapsWith(gaps, consumer)[a] == front[a];
      SameConsumerOrder(gaps[..n], i, j);
    } else {
      GapsWithMembers(gaps[..n], consumer);
      assert gaps[..n][i] in gaps[..n];
      var k :| 0 <= k < |front| && front[k] == gaps[i];
      assert GapsWith(gaps, consumer)[k] == gaps[i] && GapsWith(gaps, consumer)[|front|] == gaps[n];
    }
  }

  /** Gaps are reported consumer by consumer in name order, and in time order within each. */
  lemma {:induction false} ReportOrder(candidates: seq<Candidate>, grid: Option<Grid>)
    ensures ReportedInOrder(Validated(candidates, grid).gaps)
  {
    if grid.Some? {
      var r := Validated(candidates, grid);
      StringOrder();
      GapsByConsumer(r.valid, grid.value, SortedConsumers(r.valid));
      forall i, j | 0 <= i < j < |r.gaps| && r.gaps[i].consumerId == r.gaps[j].consumerId ensures r.gaps[i].last < r.gaps[j].first {
        GapsAreOrdered(candidates, grid.value, r.gaps[i].consumerId);
        SameConsumerOrder(r.gaps, i, j);
      }
    }
  }
}
