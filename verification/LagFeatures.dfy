/**
 * From price history to feature rows, and the live forecast that scans the same history.
 * Instants are whole microseconds, amounts exact reals.
 */
module LagFeatures {
  import opened Wrappers
  import opened Ordering
  import opened LeastSquares

  const HOUR: int := 3_600_000_000
  const LAG_24H: int := 24 * HOUR
  const LAG_168H: int := 168 * HOUR

  datatype PriceRecord = PriceRecord(marketId: string, timestamp: int, currency: string, amount: real)

  datatype FeatureRow = FeatureRow(
    marketId: string, currency: string, target: int,
    lag24h: real, lag168h: real, amount: real)

  /** Why a stage refuses its input; each is an InvalidRequestError with its own message. */
  datatype Refusal =
    | EmptyInput | MixedMarket | MixedCurrency | DuplicateTimestamp | OutOfOrder
    | EmptyTraining | EmptyEvaluation | TooFewRows | SingularDesign | ZeroVariance
    | MissingLag24h | DuplicateLag24h | MissingLag168h | DuplicateLag168h

  // ---------- guards shared by the stages ----------

  /** More than one value occurs. */
  predicate Mixed(values: seq<string>) {
    |set v | v in values| > 1
  }

  lemma MixedMeaning(values: seq<string>)
    ensures Mixed(values) <==> exists i, j :: 0 <= i < j < |values| && values[i] != values[j]
  {
    var s := set v | v in values;
    if i, j :| 0 <= i < j < |values| && values[i] != values[j] {
      assert {values[i], values[j]} <= s;
      CardinalityMonotone({values[i], values[j]}, s);
    } else if values != [] {
      assert s == {values[0]};
    } else {
      assert s == {};
    }
  }

  lemma CardinalityMonotone<T>(a: set<T>, b: set<T>)
    requires a <= b
    ensures |a| <= |b|
  {
    assert b == a + (b - a);
  }

  ghost predicate StrictlyIncreasing(times: seq<int>) {
    forall i, j :: 0 <= i < j < |times| ==> times[i] < times[j]
  }

  /** The first adjacent pair out of strict order decides the refusal. */
  function Chronology(times: seq<int>): Option<Refusal> {
    if |times| < 2 then None
    else if times[0] == times[1] then Some(DuplicateTimestamp)
    else if times[0] > times[1] then Some(OutOfOrder)
    else Chronology(times[1..])
  }

  /** The scan over neighbours accepts exactly the strictly increasing sequences. */
  lemma {:induction false} ChronologyExact(times: seq<int>)
    ensures Chronology(times) == None <==> StrictlyIncreasing(times)
  {
    if |times| >= 2 {
      ChronologyExact(times[1..]);
      assert forall i :: 0 < i < |times| ==> times[i] == times[1..][i - 1];
    }
  }

  /** The times are in order up to position `i`, and the next one repeats it. */
  ghost predicate RepeatsAt(times: seq<int>, i: nat) {
    i + 1 < |times| && StrictlyIncreasing(times[..i + 1]) && times[i + 1] == times[i]
  }

  /** The times are in order up to position `i`, and the next one goes back. */
  ghost predicate ReturnsAt(times: seq<int>, i: nat) {
    i + 1 < |times| && StrictlyIncreasing(times[..i + 1]) && times[i + 1] < times[i]
  }

  /** The first step that does not go forward names the refusal: a repetition or a return. */
  lemma {:induction false} ChronologyRefusal(times: seq<int>)
    ensures Chronology(times) in {None, Some(DuplicateTimestamp), Some(OutOfOrder)}
    ensures Chronology(times) == Some(DuplicateTimestamp) ==> exists i: nat :: RepeatsAt(times, i)
    ensures Chronology(times) == Some(OutOfOrder) ==> exists i: nat :: ReturnsAt(times, i)
  {
    if |times| >= 2 {
      if times[0] >= times[1] {
        assert RepeatsAt(times, 0) || ReturnsAt(times, 0);
      } else {
        ChronologyRefusal(times[1..]);
        if i: nat :| RepeatsAt(times[1..], i) {
          OneLater(times, i);
          assert RepeatsAt(times, i + 1);
        }
        if i: nat :| ReturnsAt(times[1..], i) {
          OneLater(times, i);
          assert ReturnsAt(times, i + 1);
        }
      }
    }
  }

  lemma OneLater(times: seq<int>, i: nat)
    requires i + 2 < |times| && times[0] < times[1] && StrictlyIncreasing(times[1..][..i + 1])
    ensures StrictlyIncreasing(times[..i + 2])
  {
    assert times[..i + 2] == [times[0]] + times[1..][..i + 1];
  }

  /** One value, however often it occurs. */
  ghost predicate Same(values: seq<string>) {
    forall i, j :: 0 <= i < j < |values| ==> values[i] == values[j]
  }

  /** The three guards that open a stage, in the order the code makes them. */
  function IdentityGuard(markets: seq<string>, currencies: seq<string>, times: seq<int>): Option<Refusal> {
    if Mixed(markets) then Some(MixedMarket)
    else if Mixed(currencies) then Some(MixedCurrency)
    else Chronology(times)
  }

  /** Which input each answer of the guards stands for. */
  ghost predicate Guards(refusal: Option<Refusal>, markets: seq<string>, currencies: seq<string>, times: seq<int>) {
    if !Same(markets) then refusal == Some(MixedMarket)
    else if !Same(currencies) then refusal == Some(MixedCurrency)
    else if StrictlyIncreasing(times) then refusal == None
    else
      || (refusal == Some(DuplicateTimestamp) && exists i: nat :: RepeatsAt(times, i))
      || (refusal == Some(OutOfOrder) && exists i: nat :: ReturnsAt(times, i))
  }

  lemma GuardMeaning(markets: seq<string>, currencies: seq<string>, times: seq<int>)
    ensures Guards(IdentityGuard(markets, currencies, times), markets, currencies, times)
  {
    MixedMeaning(markets);
    MixedMeaning(currencies);
    ChronologyExact(times);
    ChronologyRefusal(times);
    hide Mixed, StrictlyIncreasing, Chronology, RepeatsAt, ReturnsAt;
  }

  method CheckIdentity(markets: seq<string>, currencies: seq<string>, times: seq<int>) returns (r: Option<Refusal>)
    requires times != []
    ensures r == IdentityGuard(markets, currencies, times)
    ensures Guards(r, markets, currencies, times)
  {
    GuardMeaning(markets, currencies, times);
    if Mixed(markets) {
      return Some(MixedMarket);
    }
    if Mixed(currencies) {
      return Some(MixedCurrency);
    }
    r := CheckChronology(times);
  }

  method CheckChronology(times: seq<int>) returns (r: Option<Refusal>)
    requires times != []
    ensures r == Chronology(times)
    ensures r == None <==> StrictlyIncreasing(times)
  {
    ChronologyExact(times);
    var previous := times[0];
    for i := 1 to |times|
      invariant previous == times[i - 1]
      invariant Chronology(times) == Chronology(times[i - 1..])
    {
      var current := times[i];
      assert times[i - 1..][0] == previous && times[i - 1..][1] == current && times[i - 1..][1..] == times[i..];
      if previous == current {
        return Some(DuplicateTimestamp);
      }
      if previous > current {
        return Some(OutOfOrder);
      }
      previous := current;
    }
    r := None;
  }

  // ---------- the feature builder ----------

  function Timestamps(history: seq<PriceRecord>): seq<int> {
    Map((r: PriceRecord) => r.timestamp, history)
  }

  function Markets(history: seq<PriceRecord>): seq<string> {
    Map((r: PriceRecord) => r.marketId, history)
  }

  function Currencies(history: seq<PriceRecord>): seq<string> {
    Map((r: PriceRecord) => r.currency, history)
  }

  type Index = map<int, PriceRecord>

  /** `index` holds each record of `history` under its own timestamp, and nothing else. */
  ghost predicate Indexes(index: Index, history: seq<PriceRecord>) {
    && (forall r :: r in history ==> r.timestamp in index && index[r.timestamp] == r)
    && (forall t :: t in index ==> index[t] in history && index[t].timestamp == t)
  }

  function IndexOf(history: seq<PriceRecord>): Index {
    if history == [] then map[]
    else
      var last := history[|history| - 1];
      IndexOf(history[..|history| - 1])[last.timestamp := last]
  }

  lemma {:induction false} IndexOfIndexes(history: seq<PriceRecord>)
    requires Distinct(Timestamps(history))
    ensures Indexes(IndexOf(history), history)
  {
    if history != [] {
      var k := |history| - 1;
      assert forall i :: 0 <= i < |history| ==> Timestamps(history)[i] == history[i].timestamp;
      assert Distinct(Timestamps(history[..k])) by {
        assert Timestamps(history[..k]) == Timestamps(history)[..k];
      }
      IndexOfIndexes(history[..k]);
      assert history == history[..k] + [history[k]];
      forall r | r in history[..k]
        ensures r.timestamp != history[k].timestamp
      {
        var j :| 0 <= j < k && history[j] == r;
        assert Timestamps(history)[j] != Timestamps(history)[k];
      }
    }
  }

  /** What an index holds decides it. */
  lemma IndexUnique(a: Index, b: Index, s: seq<PriceRecord>, t: seq<PriceRecord>)
    requires Indexes(a, s) && Indexes(b, t) && multiset(s) == multiset(t)
    ensures a == b
  {
    assert forall r :: (r in s <==> r in multiset(s)) && (r in t <==> r in multiset(t));
    forall t' | t' in a ensures t' in b && b[t'] == a[t'] {
      assert a[t'] in t;
    }
    forall t' | t' in b ensures t' in a {
      assert b[t'] in s;
    }
  }

  /** Adding a record keeps the timestamps distinct just when the index has no entry for it yet. */
  lemma IndexStep(front: seq<PriceRecord>, record: PriceRecord)
    requires Distinct(Timestamps(front))
    ensures Distinct(Timestamps(front + [record])) <==> record.timestamp !in IndexOf(front)
    ensures IndexOf(front + [record]) == IndexOf(front)[record.timestamp := record]
  {
    IndexOfIndexes(front);
    assert (front + [record])[..|front|] == front;
    MapAppend((r: PriceRecord) => r.timestamp, front, record);
    var times := Timestamps(front);
    assert Timestamps(front + [record]) == times + [record.timestamp];
    if record.timestamp in IndexOf(front) {
      var k :| 0 <= k < |front| && front[k] == IndexOf(front)[record.timestamp];
      assert (times + [record.timestamp])[k] == (times + [record.timestamp])[|times|];
    } else {
      forall k | 0 <= k < |front|
        ensures times[k] != record.timestamp
      {
        assert front[k] in front;
      }
    }
  }

  lemma PrefixDistinct(history: seq<PriceRecord>, i: nat)
    requires i <= |history|
    ensures Distinct(Timestamps(history)) ==> Distinct(Timestamps(history[..i]))
  {
    assert Timestamps(history[..i]) == Timestamps(history)[..i];
  }

  /** The dictionary of the history, refused on the first repeated timestamp. */
  method UniqueTimestampIndex(history: seq<PriceRecord>) returns (r: Result<Index, Refusal>)
    ensures r == if Distinct(Timestamps(history)) then Ok(IndexOf(history)) else Err(DuplicateTimestamp)
  {
    var index: Index := map[];
    for i := 0 to |history|
      invariant Distinct(Timestamps(history[..i])) && index == IndexOf(history[..i])
    {
      var record := history[i];
      IndexStep(history[..i], record);
      assert history[..i + 1] == history[..i] + [record];
      if record.timestamp in index {
        PrefixDistinct(history, i + 1);
        return Err(DuplicateTimestamp);
      }
      index := index[record.timestamp := record];
    }
    assert history[..|history|] == history;
    r := Ok(index);
  }

  predicate HasLags(index: Index, target: int) {
    target - LAG_24H in index && target - LAG_168H in index
  }

  function RowForTarget(index: Index, target: int): FeatureRow
    requires target in index && HasLags(index, target)
  {
    FeatureRow(index[target].marketId, index[target].currency, target,
               index[target - LAG_24H].amount, index[target - LAG_168H].amount, index[target].amount)
  }

  function RowsForTargets(index: Index, targets: seq<int>): seq<FeatureRow>
    requires forall t :: t in targets ==> t in index
  {
    if targets == [] then []
    else
      var last := targets[|targets| - 1];
      RowsForTargets(index, targets[..|targets| - 1])
        + if HasLags(index, last) then [RowForTarget(index, last)] else []
  }

  /** The keys of the index in ascending order. */
  function SortedTargets(history: seq<PriceRecord>): (r: seq<int>)
    requires Distinct(Timestamps(history))
    ensures forall t :: t in r <==> t in IndexOf(history)
    ensures StrictlyIncreasing(r)
  {
    var r := Sort(IntLe(), Timestamps(history));
    IndexOfIndexes(history);
    TargetsAreIndexed(IndexOf(history), history, r);
    r
  }

  lemma TargetsAreIndexed(index: Index, history: seq<PriceRecord>, targets: seq<int>)
    requires Indexes(index, history) && Distinct(Timestamps(history))
    requires multiset(targets) == multiset(Timestamps(history)) && Sorted(IntLe(), targets)
    ensures forall t :: t in targets <==> t in index
    ensures StrictlyIncreasing(targets)
  {
    var times := Timestamps(history);
    DistinctPermutation(times, targets);
    assert forall t :: t in targets <==> t in multiset(targets);
    assert forall t :: t in times <==> t in multiset(times);
    assert forall i :: 0 <= i < |history| ==> times[i] == history[i].timestamp && history[i] in history;
    forall i, j | 0 <= i < j < |targets| ensures targets[i] < targets[j] {
      assert IntLe()(targets[i], targets[j]) && targets[i] != targets[j];
    }
  }

  function BuildRows(history: seq<PriceRecord>): Result<seq<FeatureRow>, Refusal> {
    if history == [] then Ok([])
    else if Mixed(Markets(history)) then Err(MixedMarket)
    else if Mixed(Currencies(history)) then Err(MixedCurrency)
    else if !Distinct(Timestamps(history)) then Err(DuplicateTimestamp)
    else Ok(RowsForTargets(IndexOf(history), SortedTargets(history)))
  }

  /** Rows are built exactly for histories of one market, one currency and distinct timestamps. */
  ghost predicate Builds(history: seq<PriceRecord>, r: Result<seq<FeatureRow>, Refusal>) {
    if exists a, b :: a in history && b in history && a.marketId != b.marketId then r == Err(MixedMarket)
    else if exists a, b :: a in history && b in history && a.currency != b.currency then r == Err(MixedCurrency)
    else if exists i, j :: 0 <= i < j < |history| && history[i].timestamp == history[j].timestamp then
      r == Err(DuplicateTimestamp)
    else r.Ok?
  }

  lemma MixedElements(history: seq<PriceRecord>)
    ensures Mixed(Markets(history)) <==> exists a, b :: a in history && b in history && a.marketId != b.marketId
    ensures Mixed(Currencies(history)) <==> exists a, b :: a in history && b in history && a.currency != b.currency
  {
    MixedMeaning(Markets(history));
    MixedMeaning(Currencies(history));
    if i, j :| 0 <= i < j < |history| && Markets(history)[i] != Markets(history)[j] {
      assert history[i] in history && history[j] in history && history[i].marketId != history[j].marketId;
    }
    if i, j :| 0 <= i < j < |history| && Currencies(history)[i] != Currencies(history)[j] {
      assert history[i] in history && history[j] in history && history[i].currency != history[j].currency;
    }
    forall a, b | a in history && b in history
      ensures !Mixed(Markets(history)) ==> a.marketId == b.marketId
      ensures !Mixed(Currencies(history)) ==> a.currency == b.currency
    {
      var i :| 0 <= i < |history| && history[i] == a;
      var j :| 0 <= j < |history| && history[j] == b;
      assert Markets(history)[i] == a.marketId && Markets(history)[j] == b.marketId;
      assert Currencies(history)[i] == a.currency && Currencies(history)[j] == b.currency;
    }
  }

  lemma BuildAccepts(history: seq<PriceRecord>)
    ensures Builds(history, BuildRows(history))
  {
    MixedElements(history);
    assert forall i :: 0 <= i < |history| ==> Timestamps(history)[i] == history[i].timestamp;
    hide Mixed, Markets, Currencies, Timestamps, IndexOf, RowsForTargets, SortedTargets;
  }

  method BuildFeatureRows(history: seq<PriceRecord>) returns (r: Result<seq<FeatureRow>, Refusal>)
    ensures r == BuildRows(history)
    ensures Builds(history, r)
  {
    BuildAccepts(history);
    if history == [] {
      return Ok([]);
    }
    if Mixed(Markets(history)) {
      return Err(MixedMarket);
    }
    if Mixed(Currencies(history)) {
      return Err(MixedCurrency);
    }
    var indexed := UniqueTimestampIndex(history);
    if indexed.Err? {
      return Err(indexed.error);
    }
    r := Ok(RowsForTargets(indexed.value, SortedTargets(history)));
  }

  /** Every row is the row of its own target, and the targets with both lags are just the row targets. */
  lemma {:induction false} RowsForTargetsExact(index: Index, targets: seq<int>)
    requires forall t :: t in targets ==> t in index
    requires StrictlyIncreasing(targets)
    ensures var rows := RowsForTargets(index, targets);
            && (forall row :: row in rows ==>
                 row.target in targets && HasLags(index, row.target) && row == RowForTarget(index, row.target))
            && (forall t :: t in targets && HasLags(index, t) ==> RowForTarget(index, t) in rows)
            && StrictlyIncreasing(Targets(rows))
  {
    if targets != [] {
      var k := |targets| - 1;
      var front, rows := RowsForTargets(index, targets[..k]), RowsForTargets(index, targets);
      RowsForTargetsExact(index, targets[..k]);
      assert targets == targets[..k] + [targets[k]];
      forall i, j | 0 <= i < j < |rows|
        ensures rows[i].target < rows[j].target
      {
        if j < |front| {
          assert Targets(front)[i] < Targets(front)[j];
        } else {
          assert front[i] in front;
        }
      }
    }
  }

  function Targets(rows: seq<FeatureRow>): (r: seq<int>)
    ensures |r| == |rows|
    ensures forall i :: 0 <= i < |rows| ==> r[i] == rows[i].target
  {
    Map((row: FeatureRow) => row.target, rows)
  }

  /** `row` is the triple of three observations at T, T - 24h and T - 168h. */
  ghost predicate IsTriple(row: FeatureRow, now: PriceRecord, day: PriceRecord, week: PriceRecord) {
    && day.timestamp == now.timestamp - 24 * HOUR && week.timestamp == now.timestamp - 7 * 24 * HOUR
    && row == FeatureRow(now.marketId, now.currency, now.timestamp, day.amount, week.amount, now.amount)
  }

  ghost predicate HasTriple(row: FeatureRow, history: seq<PriceRecord>) {
    exists now, day, week :: now in history && day in history && week in history && IsTriple(row, now, day, week)
  }

  /** `rows` are the rows of exactly the indexed targets that have both lags. */
  ghost predicate RowsFrom(rows: seq<FeatureRow>, index: Index) {
    && (forall row :: row in rows ==>
          row.target in index && HasLags(index, row.target) && row == RowForTarget(index, row.target))
    && (forall t :: t in index && HasLags(index, t) ==> RowForTarget(index, t) in rows)
  }

  lemma BuiltRowsFrom(history: seq<PriceRecord>, rows: seq<FeatureRow>) returns (index: Index)
    requires BuildRows(history) == Ok(rows)
    ensures index == IndexOf(history) && Indexes(index, history) && RowsFrom(rows, index)
    ensures Distinct(Timestamps(history)) && StrictlyIncreasing(Targets(rows))
  {
    index := IndexOf(history);
    if history != [] {
      IndexOfIndexes(history);
      var targets := SortedTargets(history);
      RowsForTargetsExact(index, targets);
    }
  }

  lemma BuiltRowIsTriple(history: seq<PriceRecord>, rows: seq<FeatureRow>, index: Index, row: FeatureRow)
    requires Indexes(index, history) && RowsFrom(rows, index) && row in rows
    ensures HasTriple(row, history)
  {
    assert IsTriple(row, index[row.target], index[row.target - LAG_24H], index[row.target - LAG_168H]);
  }

  lemma TripleIsBuilt(history: seq<PriceRecord>, rows: seq<FeatureRow>, index: Index, row: FeatureRow)
    requires Indexes(index, history) && RowsFrom(rows, index) && HasTriple(row, history)
    ensures row in rows
  {
    var now, day, week :|
      now in history && day in history && week in history && IsTriple(row, now, day, week);
    assert now.timestamp in index && HasLags(index, now.timestamp);
  }

  /** The built rows, stated without the dictionary: exactly the observed triples, in time order. */
  lemma BuiltRowsMeaning(history: seq<PriceRecord>, rows: seq<FeatureRow>)
    requires BuildRows(history) == Ok(rows)
    ensures StrictlyIncreasing(Targets(rows))
    ensures forall row :: row in rows <==> HasTriple(row, history)
  {
    hide BuildRows, HasTriple, Indexes, RowsFrom, IndexOf, Distinct, Timestamps, StrictlyIncreasing, Targets;
    var index := BuiltRowsFrom(history, rows);
    forall row ensures row in rows <==> HasTriple(row, history) {
      if row in rows {
        BuiltRowIsTriple(history, rows, index, row);
      }
      if HasTriple(row, history) {
        TripleIsBuilt(history, rows, index, row);
      }
    }
  }

  lemma MixedIgnoresOrder(s: seq<string>, t: seq<string>)
    requires multiset(s) == multiset(t)
    ensures Mixed(s) == Mixed(t)
  {
    assert forall x :: (x in s <==> x in multiset(s)) && (x in t <==> x in multiset(t));
    assert (set v | v in s) == (set v | v in t);
  }

  /** The rows do not depend on the order in which the history arrives. */
  lemma BuildIgnoresOrder(history: seq<PriceRecord>, shuffled: seq<PriceRecord>)
    requires multiset(history) == multiset(shuffled)
    ensures BuildRows(history) == BuildRows(shuffled)
  {
    assert |history| == |multiset(history)| == |multiset(shuffled)| == |shuffled|;
    MapMultiset((r: PriceRecord) => r.marketId, history, shuffled);
    MapMultiset((r: PriceRecord) => r.currency, history, shuffled);
    MapMultiset((r: PriceRecord) => r.timestamp, history, shuffled);
    MixedIgnoresOrder(Markets(history), Markets(shuffled));
    MixedIgnoresOrder(Currencies(history), Currencies(shuffled));
    DistinctPermutation(Timestamps(history), Timestamps(shuffled));
    if Distinct(Timestamps(history)) {
      IndexOfIndexes(history);
      IndexOfIndexes(shuffled);
      IndexUnique(IndexOf(history), IndexOf(shuffled), history, shuffled);
      SortIgnoresOrder(IntLe(), Timestamps(history), Timestamps(shuffled));
    }
  }

  // ---------- live inference over the same history ----------

  datatype ForecastRequest = ForecastRequest(
    runId: string, generatedAt: int, marketId: string, currency: string, history: seq<PriceRecord>)

  datatype ForecastPoint = ForecastPoint(
    runId: string, marketId: string, generatedAt: int, target: int, amount: real, currency: string)

  function Matches(history: seq<PriceRecord>, reference: int): seq<PriceRecord> {
    Filter((r: PriceRecord) => r.timestamp == reference, history)
  }

  function UniqueLag(history: seq<PriceRecord>, reference: int, missing: Refusal, duplicate: Refusal)
    : Result<PriceRecord, Refusal>
  {
    var matches := Matches(history, reference);
    if |matches| == 0 then Err(missing)
    else if |matches| != 1 then Err(duplicate)
    else Ok(matches[0])
  }

  function PointForTarget(fit: Fit, request: ForecastRequest, target: int): Result<ForecastPoint, Refusal> {
    var lag24h :- UniqueLag(request.history, target - LAG_24H, MissingLag24h, DuplicateLag24h);
    var lag168h :- UniqueLag(request.history, target - LAG_168H, MissingLag168h, DuplicateLag168h);
    Ok(ForecastPoint(request.runId, request.marketId, request.generatedAt, target,
                     Predict(fit, lag24h.amount, lag168h.amount), request.currency))
  }

  /** `record` is the only observation of the history at that instant. */
  ghost predicate OnlyAt(history: seq<PriceRecord>, reference: int, record: PriceRecord) {
    exists i :: 0 <= i < |history| && history[i] == record && record.timestamp == reference &&
                forall j :: 0 <= j < |history| && j != i ==> history[j].timestamp != reference
  }

  ghost predicate NoneAt(history: seq<PriceRecord>, reference: int) {
    forall i :: 0 <= i < |history| ==> history[i].timestamp != reference
  }

  ghost predicate SeveralAt(history: seq<PriceRecord>, reference: int) {
    exists i, j :: 0 <= i < j < |history| && history[i].timestamp == history[j].timestamp == reference
  }

  lemma {:induction false} MatchesMeaning(history: seq<PriceRecord>, reference: int)
    ensures |Matches(history, reference)| == 0 <==> NoneAt(history, reference)
    ensures |Matches(history, reference)| > 1 <==> SeveralAt(history, reference)
    ensures |Matches(history, reference)| == 1 ==> OnlyAt(history, reference, Matches(history, reference)[0])
  {
    if history != [] {
      var front, last := history[..|history| - 1], history[|history| - 1];
      MatchesMeaning(front, reference);
      assert history == front + [last];
      assert Matches(history, reference) == Matches(front, reference) + if last.timestamp == reference then [last] else [];
      MatchOneMore(front, last, reference, Matches(front, reference));
    }
  }

  lemma MatchOneMore(front: seq<PriceRecord>, last: PriceRecord, reference: int, matches: seq<PriceRecord>)
    requires |matches| == 0 <==> NoneAt(front, reference)
    requires |matches| > 1 <==> SeveralAt(front, reference)
    requires |matches| == 1 ==> OnlyAt(front, reference, matches[0])
    ensures var more := matches + if last.timestamp == reference then [last] else [];
            && (|more| == 0 <==> NoneAt(front + [last], reference))
            && (|more| > 1 <==> SeveralAt(front + [last], reference))
            && (|more| == 1 ==> OnlyAt(front + [last], reference, more[0]))
  {
    var all := front + [last];
    assert all[|front|] == last && forall i :: 0 <= i < |front| ==> all[i] == front[i];
    if last.timestamp == reference && |matches| > 0 {
      var i :| 0 <= i < |front| && front[i].timestamp == reference;
      assert all[i].timestamp == all[|front|].timestamp == reference;
    }
    if i, j :| 0 <= i < j < |front| && front[i].timestamp == front[j].timestamp == reference {
      assert all[i].timestamp == all[j].timestamp == reference;
    }
    if matches == [] && last.timestamp == reference {
      assert OnlyAt(all, reference, last);
    }
    if |matches| == 1 && last.timestamp != reference {
      var i :| 0 <= i < |front| && front[i] == matches[0]
               && forall j :: 0 <= j < |front| && j != i ==> front[j].timestamp != reference;
      assert all[i] == matches[0];
    }
  }

  /** A scan returns the one observation at its instant, and refuses none and several apart. */
  lemma UniqueLagMeaning(history: seq<PriceRecord>, reference: int, missing: Refusal, duplicate: Refusal)
    ensures var r := UniqueLag(history, reference, missing, duplicate);
            if NoneAt(history, reference) then r == Err(missing)
            else if SeveralAt(history, reference) then r == Err(duplicate)
            else r.Ok? && OnlyAt(history, reference, r.value)
  {
    MatchesMeaning(history, reference);
    hide Matches, NoneAt, SeveralAt, OnlyAt;
  }

  /** The live point made of the only observations a day and a week before the target. */
  ghost predicate IsForecast(p: ForecastPoint, fit: Fit, request: ForecastRequest, target: int) {
    exists day, week ::
      && OnlyAt(request.history, target - 24 * HOUR, day) && OnlyAt(request.history, target - 7 * 24 * HOUR, week)
      && p == ForecastPoint(request.runId, request.marketId, request.generatedAt, target,
                            fit.lag24h * day.amount + fit.lag168h * week.amount + fit.intercept, request.currency)
  }

  /** A live forecast exists exactly when each lag has one observation; the first lag at fault names the refusal. */
  lemma ForecastMeaning(fit: Fit, request: ForecastRequest, target: int)
    ensures var r, day, week := PointForTarget(fit, request, target), target - 24 * HOUR, target - 7 * 24 * HOUR;
            if NoneAt(request.history, day) then r == Err(MissingLag24h)
            else if SeveralAt(request.history, day) then r == Err(DuplicateLag24h)
            else if NoneAt(request.history, week) then r == Err(MissingLag168h)
            else if SeveralAt(request.history, week) then r == Err(DuplicateLag168h)
            else r.Ok? && IsForecast(r.value, fit, request, target)
  {
    UniqueLagMeaning(request.history, target - LAG_24H, MissingLag24h, DuplicateLag24h);
    UniqueLagMeaning(request.history, target - LAG_168H, MissingLag168h, DuplicateLag168h);
    hide UniqueLag, OnlyAt, NoneAt, SeveralAt;
  }

  lemma {:induction false} MatchesOfDistinct(history: seq<PriceRecord>, reference: int)
    requires Distinct(Timestamps(history))
    ensures |Matches(history, reference)| <= 1
  {
    if history != [] {
      var k := |history| - 1;
      assert Timestamps(history[..k]) == Timestamps(history)[..k];
      MatchesOfDistinct(history[..k], reference);
      if history[k].timestamp == reference {
        forall r | r in history[..k]
          ensures r.timestamp != reference
        {
          var j :| 0 <= j < k && history[j] == r;
          assert Timestamps(history)[j] != Timestamps(history)[k];
        }
        NoMembers(Matches(history[..k], reference));
      }
    }
  }

  /** On a history the builder accepts, the linear scan finds exactly what the index holds. */
  lemma ScanAgreesWithIndex(history: seq<PriceRecord>, reference: int, missing: Refusal, duplicate: Refusal)
    requires Distinct(Timestamps(history))
    ensures UniqueLag(history, reference, missing, duplicate)
         == if reference in IndexOf(history) then Ok(IndexOf(history)[reference]) else Err(missing)
  {
    IndexOfIndexes(history);
    MatchesOfDistinct(history, reference);
    MatchesOfIndexed(IndexOf(history), history, reference);
  }

  lemma MatchesOfIndexed(index: Index, history: seq<PriceRecord>, reference: int)
    requires Indexes(index, history) && |Matches(history, reference)| <= 1
    ensures Matches(history, reference) == if reference in index then [index[reference]] else []
  {
    var matches := Matches(history, reference);
    assert forall r :: r in matches <==> r in history && r.timestamp == reference;
    hide Matches, Filter;
    if reference in index {
      assert index[reference] in matches;
      assert matches == [matches[0]];
    } else {
      NoMembers(matches);
    }
  }

  /** An observed target has a row just when both of its lag scans succeed. */
  lemma RowExistsIffScansSucceed(history: seq<PriceRecord>, rows: seq<FeatureRow>, target: int)
    requires BuildRows(history) == Ok(rows) && target in Timestamps(history)
    ensures target in Targets(rows) <==>
              && UniqueLag(history, target - LAG_24H, MissingLag24h, DuplicateLag24h).Ok?
              && UniqueLag(history, target - LAG_168H, MissingLag168h, DuplicateLag168h).Ok?
  {
    var index := BuiltRowsFrom(history, rows);
    ScanAgreesWithIndex(history, target - LAG_24H, MissingLag24h, DuplicateLag24h);
    ScanAgreesWithIndex(history, target - LAG_168H, MissingLag168h, DuplicateLag168h);
    var k :| 0 <= k < |history| && Timestamps(history)[k] == target;
    assert history[k] in history && target in index;
    hide *;
    RowTargets(rows, index, target);
  }

  lemma RowTargets(rows: seq<FeatureRow>, index: Index, target: int)
    requires RowsFrom(rows, index) && target in index
    ensures target in Targets(rows) <==> HasLags(index, target)
  {
    if HasLags(index, target) {
      assert RowForTarget(index, target) in rows;
      var j :| 0 <= j < |rows| && rows[j] == RowForTarget(index, target);
      assert Targets(rows)[j] == target;
    } else {
      forall j | 0 <= j < |rows|
        ensures Targets(rows)[j] != target
      {
        assert rows[j] in rows;
      }
    }
  }
}
