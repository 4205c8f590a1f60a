/** Gap exactness: survivors and reported gaps are together exactly the grid between first and last survivor. */
module SeriesGaps {
  import opened Wrappers
  import opened Ordering
  import opened SeriesValidation

  // ---------- grid arithmetic ----------

  /** The grid index of an aligned instant. */
  function GridIndex(grid: Grid, t: int): int {
    (t - grid.anchor) / grid.interval
  }

  lemma AlignedForm(grid: Grid, t: int)
    requires Aligned(grid, t)
    ensures t == grid.anchor + grid.interval * GridIndex(grid, t)
  {
  }

  lemma MultipleAligned(grid: Grid, k: int)
    ensures Aligned(grid, grid.anchor + grid.interval * k)
  {
    var m := grid.interval * k;
    assert m % grid.interval == 0 by {
      MultipleMod(grid.interval, k);
    }
  }

  lemma MultipleMod(n: int, k: int)
    requires n > 0
    ensures (n * k) % n == 0 && (n * k) / n == k
  {
    var q, r := (n * k) / n, (n * k) % n;
    assert n * k == n * q + r && 0 <= r < n;
    assert n * (k - q) == r;
    MultipleBound(n, k - q);
  }

  lemma MultipleBound(n: int, m: int)
    requires n > 0
    ensures m >= 1 ==> n * m >= n
    ensures m <= -1 ==> n * m <= -n
  {
  }

  lemma ScaleOrder(n: int, a: int, b: int)
    requires n > 0
    ensures n * a < n * b <==> a < b
  {
    if a < b {
      assert n * (b - a) > 0;
    } else {
      assert n * (a - b) >= 0;
    }
  }

  /** Aligned instants are ordered as their grid indexes, and their step count is the index difference. */
  lemma IndexOrder(grid: Grid, t: int, u: int)
    requires Aligned(grid, t) && Aligned(grid, u)
    ensures t < u <==> GridIndex(grid, t) < GridIndex(grid, u)
    ensures Steps(grid, t, u) == GridIndex(grid, u) - GridIndex(grid, t)
  {
    AlignedForm(grid, t);
    AlignedForm(grid, u);
    var a, b := GridIndex(grid, t), GridIndex(grid, u);
    ScaleOrder(grid.interval, a, b);
    assert u - t == grid.interval * (b - a);
    MultipleMod(grid.interval, b - a);
  }

  lemma OffsetIndex(grid: Grid, t: int, k: int)
    requires Aligned(grid, t)
    ensures Aligned(grid, Offset(grid, t, k)) && GridIndex(grid, Offset(grid, t, k)) == GridIndex(grid, t) + k
  {
    AlignedForm(grid, t);
    var i := GridIndex(grid, t);
    assert Offset(grid, t, k) == grid.anchor + grid.interval * (i + k);
    MultipleAligned(grid, i + k);
    MultipleMod(grid.interval, i + k);
  }

  lemma SameIndex(grid: Grid, t: int, u: int)
    requires Aligned(grid, t) && Aligned(grid, u) && GridIndex(grid, t) == GridIndex(grid, u)
    ensures t == u
  {
    AlignedForm(grid, t);
    AlignedForm(grid, u);
  }

  // ---------- one gap ----------

  /** The `k`-th instant the gap reports as missing. */
  ghost predicate MissingAt(grid: Grid, gap: Gap, k: int, t: int) {
    0 <= k < gap.missingCount && t == Offset(grid, gap.first, k)
  }

  ghost predicate InGap(grid: Grid, gap: Gap, t: int) {
    exists k :: MissingAt(grid, gap, k, t)
  }

  /** A grid instant strictly between two others. */
  ghost predicate Between(grid: Grid, lo: int, hi: int, t: int) {
    Aligned(grid, t) && lo < t < hi
  }

  ghost predicate WellShaped(grid: Grid, gap: Gap) {
    gap.missingCount >= 1 && gap.last == Offset(grid, gap.first, gap.missingCount - 1)
  }

  lemma GapShape(consumer: string, lo: int, hi: int, grid: Grid)
    requires Aligned(grid, lo) && Aligned(grid, hi) && lo < hi
    ensures Steps(grid, lo, hi) >= 1
    ensures GapBetween(consumer, lo, hi, grid).Some? <==> Steps(grid, lo, hi) > 1
    ensures var gap := GapBetween(consumer, lo, hi, grid);
            gap.Some? ==>
              && gap.value.consumerId == consumer && WellShaped(grid, gap.value)
              && gap.value.missingCount == Steps(grid, lo, hi) - 1
              && Offset(grid, gap.value.first, -1) == lo && Offset(grid, gap.value.last, 1) == hi
              && lo < gap.value.first <= gap.value.last < hi
  {
    IndexOrder(grid, lo, hi);
    var n := Steps(grid, lo, hi);
    if n > 1 {
      var first, last := Offset(grid, lo, 1), Offset(grid, hi, -1);
      OffsetIndex(grid, lo, 1);
      OffsetIndex(grid, hi, -1);
      OffsetIndex(grid, first, n - 2);
      SameIndex(grid, last, Offset(grid, first, n - 2));
      IndexOrder(grid, first, last);
      ScaleOrder(grid.interval, 0, n - 2);
    }
  }

  /** A gap reports exactly the grid instants strictly between its neighbours. */
  lemma GapIsBetween(consumer: string, lo: int, hi: int, grid: Grid, t: int)
    requires Aligned(grid, lo) && Aligned(grid, hi) && lo < hi
    ensures Between(grid, lo, hi, t) <==>
              GapBetween(consumer, lo, hi, grid).Some? && InGap(grid, GapBetween(consumer, lo, hi, grid).value, t)
  {
    GapShape(consumer, lo, hi, grid);
    IndexOrder(grid, lo, hi);
    var gap := GapBetween(consumer, lo, hi, grid);
    var first := Offset(grid, lo, 1);
    OffsetIndex(grid, lo, 1);
    if Between(grid, lo, hi, t) {
      IndexOrder(grid, lo, t);
      IndexOrder(grid, t, hi);
      var k := GridIndex(grid, t) - GridIndex(grid, first);
      OffsetIndex(grid, first, k);
      SameIndex(grid, t, Offset(grid, first, k));
      assert MissingAt(grid, gap.value, k, t);
    }
    if gap.Some? && InGap(grid, gap.value, t) {
      var k :| MissingAt(grid, gap.value, k, t);
      OffsetIndex(grid, first, k);
      IndexOrder(grid, lo, t);
      IndexOrder(grid, t, hi);
    }
  }

  // ---------- the gaps of one sorted series ----------

  /** Aligned instants in strict order. */
  ghost predicate Series(grid: Grid, times: seq<int>) {
    && (forall i :: 0 <= i < |times| ==> Aligned(grid, times[i]))
    && (forall i, j :: 0 <= i < j < |times| ==> times[i] < times[j])
  }

  ghost predicate Reported(grid: Grid, gaps: seq<Gap>, t: int) {
    exists gap :: gap in gaps && InGap(grid, gap, t)
  }

  function TotalMissing(gaps: seq<Gap>): int {
    if gaps == [] then 0 else TotalMissing(gaps[..|gaps| - 1]) + gaps[|gaps| - 1].missingCount
  }

  lemma ReportedAppend(grid: Grid, gaps: seq<Gap>, gap: Gap, t: int)
    ensures Reported(grid, gaps + [gap], t) <==> Reported(grid, gaps, t) || InGap(grid, gap, t)
  {
    if Reported(grid, gaps, t) {
      var g :| g in gaps && InGap(grid, g, t);
      assert g in gaps + [gap];
    }
    if InGap(grid, gap, t) {
      assert gap in gaps + [gap];
    }
  }

  lemma SeriesPrefix(grid: Grid, times: seq<int>)
    requires Series(grid, times) && |times| >= 2
    ensures Series(grid, times[..|times| - 1])
    ensures times[|times| - 2] < times[|times| - 1]
    ensures Aligned(grid, times[|times| - 2]) && Aligned(grid, times[|times| - 1])
  {
  }

  /** The reported instants are exactly the grid instants between first and last that are not in the series. */
  lemma {:induction false} SeriesComplement(consumer: string, times: seq<int>, grid: Grid, t: int)
    requires Series(grid, times) && times != []
    ensures Reported(grid, GapsOf(consumer, times, grid), t) <==>
              Aligned(grid, t) && times[0] <= t <= times[|times| - 1] && t !in times
  {
    var k := |times| - 1;
    if k == 0 {
      assert t !in times ==> t != times[0];
    } else {
      SeriesPrefix(grid, times);
      var front, lo, hi := times[..k], times[k - 1], times[k];
      SeriesComplement(consumer, front, grid, t);
      GapIsBetween(consumer, lo, hi, grid, t);
      match GapBetween(consumer, lo, hi, grid) {
        case Some(gap) => ReportedAppend(grid, GapsOf(consumer, front, grid), gap, t);
        case None => assert GapsOf(consumer, times, grid) == GapsOf(consumer, front, grid);
      }
      assert times == front + [hi];
      assert t in times <==> t in front || t == hi;
      assert t in front ==> t <= lo;
      assert lo in front;
    }
  }

  /** Observed plus missing is the number of grid instants from first to last. */
  lemma {:induction false} SeriesCount(consumer: string, times: seq<int>, grid: Grid)
    requires Series(grid, times) && times != []
    ensures |times| + TotalMissing(GapsOf(consumer, times, grid)) == Steps(grid, times[0], times[|times| - 1]) + 1
  {
    var k := |times| - 1;
    if k == 0 {
      IndexOrder(grid, times[0], times[0]);
    } else {
      SeriesPrefix(grid, times);
      var lo, hi := times[k - 1], times[k];
      SeriesCount(consumer, times[..k], grid);
      GapShape(consumer, lo, hi, grid);
      IndexOrder(grid, times[0], lo);
      IndexOrder(grid, lo, hi);
      IndexOrder(grid, times[0], hi);
      var front, all := GapsOf(consumer, times[..k], grid), GapsOf(consumer, times, grid);
      if GapBetween(consumer, lo, hi, grid).Some? {
        assert all[..|all| - 1] == front;
      } else {
        assert all == front;
      }
    }
  }

  /** Every gap is well shaped, and the grid neighbours on both sides are observed: gaps are maximal. */
  ghost predicate Maximal(grid: Grid, times: seq<int>, gap: Gap) {
    WellShaped(grid, gap) && Offset(grid, gap.first, -1) in times && Offset(grid, gap.last, 1) in times
  }

  lemma {:induction false} SeriesMaximal(consumer: string, times: seq<int>, grid: Grid)
    requires Series(grid, times)
    ensures forall gap :: gap in GapsOf(consumer, times, grid) ==> gap.consumerId == consumer && Maximal(grid, times, gap)
  {
    if |times| >= 2 {
      var k := |times| - 1;
      SeriesPrefix(grid, times);
      SeriesMaximal(consumer, times[..k], grid);
      GapShape(consumer, times[k - 1], times[k], grid);
      assert times == times[..k] + [times[k]];
      assert times[k - 1] in times && times[k] in times;
    }
  }

  ghost predicate InOrder(gaps: seq<Gap>) {
    forall i, j :: 0 <= i < j < |gaps| ==> gaps[i].last < gaps[j].first
  }

  ghost predicate EndBefore(gaps: seq<Gap>, t: int) {
    forall i :: 0 <= i < |gaps| ==> gaps[i].last < t
  }

  /** Gaps come in time order and never overlap. */
  lemma {:induction false} SeriesOrdered(consumer: string, times: seq<int>, grid: Grid)
    requires Series(grid, times)
    ensures InOrder(GapsOf(consumer, times, grid))
    ensures times != [] ==> EndBefore(GapsOf(consumer, times, grid), times[|times| - 1])
  {
    if |times| >= 2 {
      var k := |times| - 1;
      SeriesPrefix(grid, times);
      SeriesOrdered(consumer, times[..k], grid);
      var front := GapsOf(consumer, times[..k], grid);
      assert EndBefore(front, times[k - 1]);
      GapShape(consumer, times[k - 1], times[k], grid);
    }
  }

  // ---------- from candidates to series ----------

  ghost predicate DistinctKeys(candidates: seq<Candidate>) {
    forall i, j :: 0 <= i < j < |candidates| ==> KeyOf(candidates[i].record) != KeyOf(candidates[j].record)
  }

  lemma {:induction false} SurvivorOrigin(candidates: seq<Candidate>, grid: Option<Grid>, n: nat, c: Candidate)
    requires n <= |candidates|
    ensures c in Survivors(candidates, grid, n) <==>
              exists i :: 0 <= i < n && candidates[i] == c && Survives(candidates, grid, i)
  {
    if n > 0 {
      SurvivorOrigin(candidates, grid, n - 1, c);
      assert c in Survivors(candidates, grid, n) <==>
        c in Survivors(candidates, grid, n - 1) || (Survives(candidates, grid, n - 1) && candidates[n - 1] == c);
    }
  }

  /** Survivors have pairwise distinct keys. */
  lemma {:induction false} SurvivorsDistinct(candidates: seq<Candidate>, grid: Option<Grid>, n: nat)
    requires n <= |candidates|
    ensures DistinctKeys(Survivors(candidates, grid, n))
  {
    if n > 0 {
      SurvivorsDistinct(candidates, grid, n - 1);
      if Survives(candidates, grid, n - 1) {
        forall c | c in Survivors(candidates, grid, n - 1)
          ensures KeyOf(c.record) != KeyOf(candidates[n - 1].record)
        {
          SurvivorOrigin(candidates, grid, n - 1, c);
        }
      }
    }
  }

  lemma {:induction false} TimesMembers(candidates: seq<Candidate>, consumer: string)
    ensures forall t :: t in TimesOf(candidates, consumer) <==>
              exists c :: c in candidates && KeyOf(c.record) == (consumer, t)
  {
    if candidates != [] {
      var front, last := candidates[..|candidates| - 1], candidates[|candidates| - 1];
      TimesMembers(front, consumer);
      assert candidates == front + [last];
      forall t
        ensures t in TimesOf(candidates, consumer) <==> exists c :: c in candidates && KeyOf(c.record) == (consumer, t)
      {
        assert t in TimesOf(candidates, consumer) <==>
          t in TimesOf(front, consumer) || KeyOf(last.record) == (consumer, t);
        if c :| c in front && KeyOf(c.record) == (consumer, t) {
          assert c in candidates;
        }
        if KeyOf(last.record) == (consumer, t) {
          assert last in candidates;
        }
      }
    }
  }

  lemma {:induction false} TimesDistinct(candidates: seq<Candidate>, consumer: string)
    requires DistinctKeys(candidates)
    ensures Distinct(TimesOf(candidates, consumer))
  {
    if candidates != [] {
      var front, last := candidates[..|candidates| - 1], candidates[|candidates| - 1];
      TimesDistinct(front, consumer);
      TimesMembers(front, consumer);
    }
  }

  /** One consumer's survivors, sorted, are a series on the grid. */
  lemma SurvivorsSeries(candidates: seq<Candidate>, grid: Grid, consumer: string)
    ensures var times := TimesOf(Survivors(candidates, Some(grid), |candidates|), consumer);
            && Series(grid, Sort(IntLe(), times))
            && |Sort(IntLe(), times)| == |times|
            && (forall t :: t in times <==> t in Sort(IntLe(), times))
  {
    var valid := Survivors(candidates, Some(grid), |candidates|);
    var times := TimesOf(valid, consumer);
    var sorted := Sort(IntLe(), times);
    SurvivorsDistinct(candidates, Some(grid), |candidates|);
    TimesDistinct(valid, consumer);
    DistinctPermutation(times, sorted);
    assert |sorted| == |multiset(sorted)| == |multiset(times)| == |times|;
    assert forall t :: (t in times <==> t in multiset(times)) && (t in sorted <==> t in multiset(sorted));
    TimesMembers(valid, consumer);
    hide Survivors, TimesOf, Sort, Aligned;
    forall t | t in times ensures Aligned(grid, t) {
      var c :| c in valid && KeyOf(c.record) == (consumer, t);
      SurvivorOrigin(candidates, Some(grid), |candidates|, c);
    }
  }

  /** The gaps reported for one consumer. */
  function GapsWith(gaps: seq<Gap>, consumer: string): seq<Gap> {
    if gaps == [] then []
    else GapsWith(gaps[..|gaps| - 1], consumer)
         + if gaps[|gaps| - 1].consumerId == consumer then [gaps[|gaps| - 1]] else []
  }

  lemma {:induction false} GapsWithConcat(a: seq<Gap>, b: seq<Gap>, consumer: string)
    ensures GapsWith(a + b, consumer) == GapsWith(a, consumer) + GapsWith(b, consumer)
  {
    if b == [] {
      assert a + b == a;
    } else {
      GapsWithConcat(a, b[..|b| - 1], consumer);
      assert (a + b)[..|a + b| - 1] == a + b[..|b| - 1];
    }
  }

  lemma {:induction false} GapsWithOwn(gaps: seq<Gap>, owner: string, consumer: string)
    requires forall i :: 0 <= i < |gaps| ==> gaps[i].consumerId == owner
    ensures GapsWith(gaps, consumer) == if owner == consumer then gaps else []
  {
    if gaps != [] {
      GapsWithOwn(gaps[..|gaps| - 1], owner, consumer);
    }
  }

  lemma {:induction false} GapOwner(consumer: string, times: seq<int>, grid: Grid)
    ensures forall i :: 0 <= i < |GapsOf(consumer, times, grid)| ==> GapsOf(consumer, times, grid)[i].consumerId == consumer
  {
    if |times| >= 2 {
      GapOwner(consumer, times[..|times| - 1], grid);
    }
  }

  lemma GapsWithNone(consumer: string)
    ensures GapsWith([], consumer) == []
  {
  }

  lemma {:induction false} GapsForConsumer(candidates: seq<Candidate>, grid: Grid, consumers: seq<string>, consumer: string)
    requires Distinct(consumers)
    ensures GapsWith(GapsFor(candidates, grid, consumers), consumer)
         == if consumer in consumers then ConsumerGaps(candidates, grid, consumer) else []
  {
    hide GapsWith, GapsOf, TimesOf, Sort;
    if consumers == [] {
      GapsWithNone(consumer);
    } else {
      var front, last := consumers[..|consumers| - 1], consumers[|consumers| - 1];
      GapsForConsumer(candidates, grid, front, consumer);
      GapsWithConcat(GapsFor(candidates, grid, front), ConsumerGaps(candidates, grid, last), consumer);
      GapOwner(last, Sort(IntLe(), TimesOf(candidates, last)), grid);
      GapsWithOwn(ConsumerGaps(candidates, grid, last), last, consumer);
      assert consumers == front + [last];
    }
  }

  lemma {:induction false} ConsumersOf(candidates: seq<Candidate>)
    ensures Distinct(Consumers(candidates))
    ensures forall c :: c in Consumers(candidates) <==> TimesOf(candidates, c) != []
  {
    if candidates != [] {
      ConsumersOf(candidates[..|candidates| - 1]);
    }
  }

  /** The reported gaps of a consumer are the gaps of its own sorted survivors. */
  lemma DetectedForConsumer(candidates: seq<Candidate>, grid: Grid, consumer: string)
    ensures GapsWith(DetectedGaps(candidates, Some(grid)), consumer) == ConsumerGaps(candidates, grid, consumer)
  {
    StringOrder();
    ConsumersOf(candidates);
    SortedConsumersAreConsumers(candidates);
    DistinctPermutation(Consumers(candidates), SortedConsumers(candidates));
    GapsForConsumer(candidates, grid, SortedConsumers(candidates), consumer);
    if consumer !in Consumers(candidates) {
      assert Sort(IntLe(), TimesOf(candidates, consumer)) == [];
    }
  }

  // ---------- main results ----------

  /** Earliest and latest survivor of a consumer. */
  ghost predicate Extremes(times: seq<int>, first: int, last: int) {
    first in times && last in times && forall t :: t in times ==> first <= t <= last
  }

  /**
   * For each consumer the surviving instants and the expansions of its reported gaps are disjoint, and
   * together are exactly the grid from the first to the last survivor.
   */
  lemma GapsAreComplement(candidates: seq<Candidate>, grid: Grid, consumer: string, first: int, last: int, t: int)
    requires Extremes(TimesOf(Validated(candidates, Some(grid)).valid, consumer), first, last)
    ensures var r := Validated(candidates, Some(grid));
            Reported(grid, GapsWith(r.gaps, consumer), t) <==>
              Aligned(grid, t) && first <= t <= last && t !in TimesOf(r.valid, consumer)
  {
    var valid := Validated(candidates, Some(grid)).valid;
    var sorted := Sort(IntLe(), TimesOf(valid, consumer));
    SurvivorsSeries(candidates, grid, consumer);
    SortedExtremes(grid, TimesOf(valid, consumer), sorted, first, last);
    DetectedForConsumer(valid, grid, consumer);
    SeriesComplement(consumer, sorted, grid, t);
  }

  lemma SortedExtremes(grid: Grid, times: seq<int>, sorted: seq<int>, first: int, last: int)
    requires Extremes(times, first, last) && Series(grid, sorted)
    requires forall t :: t in times <==> t in sorted
    ensures sorted != [] && sorted[0] == first && sorted[|sorted| - 1] == last
  {
    assert first in sorted && last in sorted;
    assert sorted[0] in sorted && sorted[|sorted| - 1] in sorted;
    var i :| 0 <= i < |sorted| && sorted[i] == first;
    var j :| 0 <= j < |sorted| && sorted[j] == last;
  }

  /** Observed count plus the reported missing counts is the number of grid instants from first to last. */
  lemma GapsCount(candidates: seq<Candidate>, grid: Grid, consumer: string, first: int, last: int)
    requires Extremes(TimesOf(Validated(candidates, Some(grid)).valid, consumer), first, last)
    ensures var r := Validated(candidates, Some(grid));
            |TimesOf(r.valid, consumer)| + TotalMissing(GapsWith(r.gaps, consumer)) == Steps(grid, first, last) + 1
  {
    var valid := Validated(candidates, Some(grid)).valid;
    var sorted := Sort(IntLe(), TimesOf(valid, consumer));
    SurvivorsSeries(candidates, grid, consumer);
    SortedExtremes(grid, TimesOf(valid, consumer), sorted, first, last);
    DetectedForConsumer(valid, grid, consumer);
    SeriesCount(consumer, sorted, grid);
  }

  /** Reported gaps are maximal: the grid instants next to a gap are both observed. */
  lemma GapsAreMaximal(candidates: seq<Candidate>, grid: Grid, consumer: string, gap: Gap)
    requires gap in GapsWith(Validated(candidates, Some(grid)).gaps, consumer)
    ensures Maximal(grid, TimesOf(Validated(candidates, Some(grid)).valid, consumer), gap)
  {
    var valid := Validated(candidates, Some(grid)).valid;
    var sorted := Sort(IntLe(), TimesOf(valid, consumer));
    SurvivorsSeries(candidates, grid, consumer);
    DetectedForConsumer(valid, grid, consumer);
    SeriesMaximal(consumer, sorted, grid);
  }

  /** A consumer's gaps are reported in time order and never overlap. */
  lemma GapsAreOrdered(candidates: seq<Candidate>, grid: Grid, consumer: string)
    ensures InOrder(GapsWith(Validated(candidates, Some(grid)).gaps, consumer))
  {
    var valid := Validated(candidates, Some(grid)).valid;
    SurvivorsSeries(candidates, grid, consumer);
    DetectedForConsumer(valid, grid, consumer);
    SeriesOrdered(consumer, Sort(IntLe(), TimesOf(valid, consumer)), grid);
  }
}
