/** Structural validation of a consumption series: duplicates, grid alignment, and gaps. */
module SeriesValidation {
  import opened Wrappers
  import opened Ordering

  /** One observation with the source row it came from. Instants are whole microseconds. */
  datatype Record = Record(consumerId: string, timestamp: int, valueMw: real)

  datatype Candidate = Candidate(record: Record, position: nat)

  type Key = (string, int)

  function KeyOf(r: Record): Key {
    (r.consumerId, r.timestamp)
  }

  /** An explicit timestamp lattice. */
  datatype RawGrid = Grid(interval: int, anchor: int)

  type Grid = g: RawGrid | g.interval > 0 witness Grid(1, 0)

  predicate Aligned(grid: Grid, t: int) {
    (t - grid.anchor) % grid.interval == 0
  }

  function Steps(grid: Grid, earlier: int, later: int): int {
    (later - earlier) / grid.interval
  }

  function Offset(grid: Grid, t: int, steps: int): int {
    t + grid.interval * steps
  }

  datatype IssueCode = DuplicateTimestamp | IntervalMisaligned

  datatype Issue = Issue(position: nat, code: IssueCode)

  datatype Gap = Gap(consumerId: string, first: int, last: int, missingCount: int)

  datatype Validation = Validation(valid: seq<Candidate>, issues: seq<Issue>, gaps: seq<Gap>)

  // ---------- duplicates ----------

  /** Another candidate has the same consumer and instant. */
  predicate IsDuplicate(candidates: seq<Candidate>, i: nat)
    requires i < |candidates|
  {
    exists j :: 0 <= j < |candidates| && j != i && KeyOf(candidates[j].record) == KeyOf(candidates[i].record)
  }

  /** The dictionary of positions by key, over the first `n` candidates. */
  ghost predicate Groups(groups: map<Key, set<nat>>, candidates: seq<Candidate>, n: nat)
    requires n <= |candidates|
  {
    && (forall i :: 0 <= i < n ==>
          KeyOf(candidates[i].record) in groups && i in groups[KeyOf(candidates[i].record)])
    && (forall k, i {:trigger i in groups[k]} :: k in groups && i in groups[k] ==> i < n && KeyOf(candidates[i].record) == k)
  }

  lemma GroupSize(group: set<nat>, i: nat)
    requires i in group
    ensures |group| > 1 <==> exists j :: j in group && j != i
  {
    if j :| j in group && j != i {
      assert |{i, j}| == 2;
      assert group == {i, j} + (group - {i, j});
    } else {
      assert group == {i};
    }
  }

  lemma GroupHolds(groups: map<Key, set<nat>>, candidates: seq<Candidate>, n: nat, key: Key, j: nat)
    requires n <= |candidates| && Groups(groups, candidates, n)
    ensures j < n && KeyOf(candidates[j].record) == key <==> key in groups && j in groups[key]
  {
    if j < n && KeyOf(candidates[j].record) == key {
      assert KeyOf(candidates[j].record) in groups;
    }
  }

  lemma GroupsStep(groups: map<Key, set<nat>>, candidates: seq<Candidate>, i: nat, key: Key, group: set<nat>)
    requires i < |candidates| && Groups(groups, candidates, i) && key == KeyOf(candidates[i].record)
    requires group == if key in groups then groups[key] else {}
    ensures Groups(groups[key := group + {i}], candidates, i + 1)
  {
    var updated := groups[key := group + {i}];
    forall k: Key, j: nat
      ensures j < i + 1 && KeyOf(candidates[j].record) == k <==> k in updated && j in updated[k]
    {
      GroupHolds(groups, candidates, i, k, j);
    }
  }

  lemma GroupsTell(groups: map<Key, set<nat>>, candidates: seq<Candidate>, i: nat)
    requires i < |candidates| && Groups(groups, candidates, |candidates|)
    ensures KeyOf(candidates[i].record) in groups
    ensures |groups[KeyOf(candidates[i].record)]| > 1 <==> IsDuplicate(candidates, i)
  {
    var key := KeyOf(candidates[i].record);
    GroupHolds(groups, candidates, |candidates|, key, i);
    forall j: nat
      ensures j < |candidates| && KeyOf(candidates[j].record) == key <==> j in groups[key]
    {
      GroupHolds(groups, candidates, |candidates|, key, j);
    }
    GroupSize(groups[key], i);
  }

  method DuplicateIndexes(candidates: seq<Candidate>) returns (duplicates: set<nat>)
    ensures forall i :: i in duplicates <==> 0 <= i < |candidates| && IsDuplicate(candidates, i)
  {
    var groups: map<Key, set<nat>> := map[];
    for i := 0 to |candidates|
      invariant Groups(groups, candidates, i)
    {
      var key := KeyOf(candidates[i].record);
      var group := if key in groups then groups[key] else {};
      GroupsStep(groups, candidates, i, key, group);
      groups := groups[key := group + {i}];
    }
    hide IsDuplicate;
    forall i | 0 <= i < |candidates|
      ensures KeyOf(candidates[i].record) in groups
      ensures |groups[KeyOf(candidates[i].record)]| > 1 <==> IsDuplicate(candidates, i)
    {
      GroupsTell(groups, candidates, i);
    }
    duplicates := set i | 0 <= i < |candidates| && |groups[KeyOf(candidates[i].record)]| > 1;
  }

  // ---------- survivors and issues ----------

  predicate Misaligned(grid: Option<Grid>, c: Candidate) {
    grid.Some? && !Aligned(grid.value, c.record.timestamp)
  }

  predicate Survives(candidates: seq<Candidate>, grid: Option<Grid>, i: nat)
    requires i < |candidates|
  {
    !IsDuplicate(candidates, i) && !Misaligned(grid, candidates[i])
  }

  /** The surviving candidates among the first `n`, in source order. */
  function Survivors(candidates: seq<Candidate>, grid: Option<Grid>, n: nat): seq<Candidate>
    requires n <= |candidates|
  {
    if n == 0 then []
    else Survivors(candidates, grid, n - 1) + if Survives(candidates, grid, n - 1) then [candidates[n - 1]] else []
  }

  /** One issue for each other candidate; being a duplicate takes precedence over misalignment. */
  function Issues(candidates: seq<Candidate>, grid: Option<Grid>, n: nat): seq<Issue>
    requires n <= |candidates|
  {
    if n == 0 then []
    else
      var front, c := Issues(candidates, grid, n - 1), candidates[n - 1];
      if IsDuplicate(candidates, n - 1) then front + [Issue(c.position, DuplicateTimestamp)]
      else if Misaligned(grid, c) then front + [Issue(c.position, IntervalMisaligned)]
      else front
  }

  // ---------- gaps ----------

  function GapBetween(consumer: string, previous: int, current: int, grid: Grid): Option<Gap> {
    var steps := Steps(grid, previous, current);
    if steps <= 1 then None
    else Some(Gap(consumer, Offset(grid, previous, 1), Offset(grid, current, -1), steps - 1))
  }

  /** The gaps between neighbours of a timestamp list. */
  function GapsOf(consumer: string, times: seq<int>, grid: Grid): seq<Gap> {
    if |times| < 2 then []
    else
      var k := |times| - 1;
      GapsOf(consumer, times[..k], grid)
        + match GapBetween(consumer, times[k - 1], times[k], grid) { case Some(g) => [g] case None => [] }
  }

  function TimesOf(candidates: seq<Candidate>, consumer: string): seq<int> {
    if candidates == [] then []
    else
      var last := candidates[|candidates| - 1].record;
      TimesOf(candidates[..|candidates| - 1], consumer) + if last.consumerId == consumer then [last.timestamp] else []
  }

  function Consumers(candidates: seq<Candidate>): seq<string> {
    if candidates == [] then []
    else
      var front := Consumers(candidates[..|candidates| - 1]);
      var consumer := candidates[|candidates| - 1].record.consumerId;
      if consumer in front then front else front + [consumer]
  }

  function ConsumerGaps(candidates: seq<Candidate>, grid: Grid, consumer: string): seq<Gap> {
    GapsOf(consumer, Sort(IntLe(), TimesOf(candidates, consumer)), grid)
  }

  function GapsFor(candidates: seq<Candidate>, grid: Grid, consumers: seq<string>): seq<Gap> {
    if consumers == [] then []
    else GapsFor(candidates, grid, consumers[..|consumers| - 1])
         + ConsumerGaps(candidates, grid, consumers[|consumers| - 1])
  }

  function SortedConsumers(candidates: seq<Candidate>): seq<string> {
    StringOrder();
    Sort(StringLe, Consumers(candidates))
  }

  function DetectedGaps(candidates: seq<Candidate>, grid: Option<Grid>): seq<Gap> {
    match grid
    case None => []
    case Some(g) => GapsFor(candidates, g, SortedConsumers(candidates))
  }

  /** Every consumer's own timestamps, in source order. */
  ghost predicate Grouped(grouped: map<string, seq<int>>, candidates: seq<Candidate>) {
    && (forall c :: c in grouped <==> c in Consumers(candidates))
    && (forall c :: c in grouped ==> grouped[c] == TimesOf(candidates, c))
    && (forall c :: c !in grouped ==> TimesOf(candidates, c) == [])
  }

  lemma GroupingAppend(front: seq<Candidate>, last: Candidate, c: string)
    ensures TimesOf(front + [last], c) == TimesOf(front, c) + if last.record.consumerId == c then [last.record.timestamp] else []
    ensures Consumers(front + [last])
            == if last.record.consumerId in Consumers(front) then Consumers(front) else Consumers(front) + [last.record.consumerId]
  {
    var all := front + [last];
    assert all[..|all| - 1] == front;
  }

  lemma GroupedStep(grouped: map<string, seq<int>>, front: seq<Candidate>, last: Candidate, times: seq<int>)
    requires Grouped(grouped, front)
    requires times == if last.record.consumerId in grouped then grouped[last.record.consumerId] else []
    ensures Grouped(grouped[last.record.consumerId := times + [last.record.timestamp]], front + [last])
    ensures Consumers(front + [last])
            == if last.record.consumerId in grouped then Consumers(front) else Consumers(front) + [last.record.consumerId]
  {
    hide Consumers, TimesOf;
    GroupingAppend(front, last, last.record.consumerId);
    forall c ensures TimesOf(front + [last], c)
                     == TimesOf(front, c) + if last.record.consumerId == c then [last.record.timestamp] else []
    {
      GroupingAppend(front, last, c);
    }
  }

  lemma NothingGrouped()
    ensures Consumers([]) == [] && Grouped(map[], [])
  {
  }

  /** One step of the grouping loop. */
  method GroupOne(order: seq<string>, grouped: map<string, seq<int>>, ghost front: seq<Candidate>, c: Candidate)
    returns (order': seq<string>, grouped': map<string, seq<int>>)
    requires order == Consumers(front) && Grouped(grouped, front)
    ensures order' == Consumers(front + [c]) && Grouped(grouped', front + [c])
  {
    var consumer := c.record.consumerId;
    if consumer in grouped {
      GroupedStep(grouped, front, c, grouped[consumer]);
      hide *;
      order', grouped' := order, grouped[consumer := grouped[consumer] + [c.record.timestamp]];
    } else {
      GroupedStep(grouped, front, c, []);
      hide *;
      order', grouped' := order + [consumer], grouped[consumer := [] + [c.record.timestamp]];
    }
  }

  method GroupByConsumer(candidates: seq<Candidate>) returns (order: seq<string>, grouped: map<string, seq<int>>)
    ensures order == Consumers(candidates) && Grouped(grouped, candidates)
  {
    order, grouped := [], map[];
    ghost var front: seq<Candidate> := [];
    hide *;
    NothingGrouped();
    for i := 0 to |candidates|
      invariant front == candidates[..i]
      invariant order == Consumers(front) && Grouped(grouped, front)
    {
      order, grouped := GroupOne(order, grouped, front, candidates[i]);
      front := front + [candidates[i]];
    }
    assert front == candidates;
  }

  method CollectGaps(ghost candidates: seq<Candidate>, grid: Grid, consumers: seq<string>, grouped: map<string, seq<int>>)
    returns (gaps: seq<Gap>)
    requires Grouped(grouped, candidates)
    requires forall i :: 0 <= i < |consumers| ==> consumers[i] in grouped
    ensures gaps == GapsFor(candidates, grid, consumers)
  {
    gaps := [];
    for i := 0 to |consumers|
      invariant gaps == GapsFor(candidates, grid, consumers[..i])
    {
      assert consumers[..i + 1][..i] == consumers[..i];
      var found := AdjacentGaps(consumers[i], Sort(IntLe(), grouped[consumers[i]]), grid);
      gaps := gaps + found;
    }
    assert consumers[..|consumers|] == consumers;
  }

  method DetectGaps(candidates: seq<Candidate>, grid: Option<Grid>) returns (gaps: seq<Gap>)
    ensures gaps == DetectedGaps(candidates, grid)
  {
    if grid.None? {
      return [];
    }
    var order, grouped := GroupByConsumer(candidates);
    SortedConsumersAreConsumers(candidates);
    gaps := CollectGaps(candidates, grid.value, SortedConsumers(candidates), grouped);
  }

  lemma SortedConsumersAreConsumers(candidates: seq<Candidate>)
    ensures forall c :: c in SortedConsumers(candidates) <==> c in Consumers(candidates)
  {
    StringOrder();
    var order, sorted := Consumers(candidates), SortedConsumers(candidates);
    assert forall c :: (c in order <==> c in multiset(order)) && (c in sorted <==> c in multiset(sorted));
  }

  method AdjacentGaps(consumer: string, times: seq<int>, grid: Grid) returns (gaps: seq<Gap>)
    ensures gaps == GapsOf(consumer, times, grid)
  {
    gaps := [];
    if |times| < 2 {
      return;
    }
    for i := 1 to |times|
      invariant gaps == GapsOf(consumer, times[..i], grid)
    {
      assert times[..i + 1][..i] == times[..i];
      var gap := GapBetween(consumer, times[i - 1], times[i], grid);
      if gap.Some? {
        gaps := gaps + [gap.value];
      }
    }
    assert times[..|times|] == times;
  }

  function Validated(candidates: seq<Candidate>, grid: Option<Grid>): Validation {
    var valid := Survivors(candidates, grid, |candidates|);
    Validation(valid, Issues(candidates, grid, |candidates|), DetectedGaps(valid, grid))
  }

  method ValidateSeries(candidates: seq<Candidate>, grid: Option<Grid>) returns (r: Validation)
    ensures r == Validated(candidates, grid)
  {
    var duplicates := DuplicateIndexes(candidates);
    var valid: seq<Candidate> := [];
    var issues: seq<Issue> := [];
    for i := 0 to |candidates|
      invariant valid == Survivors(candidates, grid, i)
      invariant issues == Issues(candidates, grid, i)
    {
      var c := candidates[i];
      if i in duplicates {
        issues := issues + [Issue(c.position, DuplicateTimestamp)];
      } else if grid.Some? && !Aligned(grid.value, c.record.timestamp) {
        issues := issues + [Issue(c.position, IntervalMisaligned)];
      } else {
        valid := valid + [c];
      }
    }
    var gaps := DetectGaps(valid, grid);
    r := Validation(valid, issues, gaps);
  }
}
