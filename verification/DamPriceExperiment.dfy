/** The offline experiment on built rows: split, fit, predict, score; and how it agrees with live inference. */
module DamPriceExperiment {
  import opened Wrappers
  import opened Vectors
  import opened LeastSquares
  import opened LinearRegression
  import opened LagFeatures

  function RowMarkets(rows: seq<FeatureRow>): seq<string> {
    Map((row: FeatureRow) => row.marketId, rows)
  }

  function RowCurrencies(rows: seq<FeatureRow>): seq<string> {
    Map((row: FeatureRow) => row.currency, rows)
  }

  /** The identity and chronology checks that open every stage. */
  function RowGuard(rows: seq<FeatureRow>): Option<Refusal> {
    IdentityGuard(RowMarkets(rows), RowCurrencies(rows), Targets(rows))
  }

  /** `error` is what the identity and chronology of these rows are refused for. */
  ghost predicate RowsRefused(rows: seq<FeatureRow>, error: Refusal) {
    Guards(Some(error), RowMarkets(rows), RowCurrencies(rows), Targets(rows))
  }

  method CheckRows(rows: seq<FeatureRow>) returns (r: Option<Refusal>)
    requires rows != []
    ensures r == RowGuard(rows)
    ensures if Coherent(rows) then r == None else r.Some? && RowsRefused(rows, r.value)
  {
    RowGuardExact(rows);
    r := CheckIdentity(RowMarkets(rows), RowCurrencies(rows), Targets(rows));
  }

  /** The rows share one market and one currency and come in strict time order. */
  ghost predicate Coherent(rows: seq<FeatureRow>) {
    && (forall a, b :: a in rows && b in rows ==> a.marketId == b.marketId && a.currency == b.currency)
    && StrictlyIncreasing(Targets(rows))
  }

  lemma SameIdentities(rows: seq<FeatureRow>)
    ensures Same(RowMarkets(rows)) && Same(RowCurrencies(rows)) <==>
            forall a, b :: a in rows && b in rows ==> a.marketId == b.marketId && a.currency == b.currency
  {
    assert forall i :: 0 <= i < |rows| ==> RowMarkets(rows)[i] == rows[i].marketId && rows[i] in rows;
    assert forall i :: 0 <= i < |rows| ==> RowCurrencies(rows)[i] == rows[i].currency;
    if Same(RowMarkets(rows)) && Same(RowCurrencies(rows)) {
      forall a, b | a in rows && b in rows
        ensures a.marketId == b.marketId && a.currency == b.currency
      {
        var i :| 0 <= i < |rows| && rows[i] == a;
        var j :| 0 <= j < |rows| && rows[j] == b;
        assert RowMarkets(rows)[i] == RowMarkets(rows)[j];
        assert RowCurrencies(rows)[i] == RowCurrencies(rows)[j];
      }
    }
  }

  /** The guard refuses exactly the incoherent rows, naming what is wrong with them. */
  lemma RowGuardExact(rows: seq<FeatureRow>)
    ensures if Coherent(rows) then RowGuard(rows) == None
            else RowGuard(rows).Some? && RowsRefused(rows, RowGuard(rows).value)
  {
    SameIdentities(rows);
    GuardMeaning(RowMarkets(rows), RowCurrencies(rows), Targets(rows));
    hide RowMarkets, RowCurrencies, Targets, Same, StrictlyIncreasing, IdentityGuard, RepeatsAt, ReturnsAt;
  }

  lemma CoherentSlice(rows: seq<FeatureRow>, lo: nat, hi: nat)
    requires Coherent(rows) && lo <= hi <= |rows|
    ensures Coherent(rows[lo..hi])
  {
    assert Targets(rows[lo..hi]) == Targets(rows)[lo..hi];
  }

  // ---------- split ----------

  datatype Split = Split(training: seq<FeatureRow>, evaluation: seq<FeatureRow>)

  function Before(rows: seq<FeatureRow>, cutoff: int): seq<FeatureRow> {
    if rows == [] then []
    else
      var last := rows[|rows| - 1];
      Before(rows[..|rows| - 1], cutoff) + if last.target < cutoff then [last] else []
  }

  function AtOrAfter(rows: seq<FeatureRow>, cutoff: int): seq<FeatureRow> {
    if rows == [] then []
    else
      var last := rows[|rows| - 1];
      AtOrAfter(rows[..|rows| - 1], cutoff) + if last.target >= cutoff then [last] else []
  }

  /** Each part holds exactly the rows on its side of the cutoff. */
  lemma {:induction false} SidesOfCutoff(rows: seq<FeatureRow>, cutoff: int)
    ensures forall row :: row in Before(rows, cutoff) <==> row in rows && row.target < cutoff
    ensures forall row :: row in AtOrAfter(rows, cutoff) <==> row in rows && row.target >= cutoff
  {
    if rows != [] {
      SidesOfCutoff(rows[..|rows| - 1], cutoff);
      assert rows == rows[..|rows| - 1] + [rows[|rows| - 1]];
    }
  }

  function SplitRows(rows: seq<FeatureRow>, cutoff: int): Result<Split, Refusal> {
    if rows == [] then Err(EmptyInput)
    else if RowGuard(rows).Some? then Err(RowGuard(rows).value)
    else if Before(rows, cutoff) == [] then Err(EmptyTraining)
    else if AtOrAfter(rows, cutoff) == [] then Err(EmptyEvaluation)
    else Ok(Split(Before(rows, cutoff), AtOrAfter(rows, cutoff)))
  }

  lemma AllBefore(rows: seq<FeatureRow>, cutoff: int)
    requires forall row :: row in rows ==> row.target < cutoff
    ensures AtOrAfter(rows, cutoff) == []
  {
    SidesOfCutoff(rows, cutoff);
    NoMembers(AtOrAfter(rows, cutoff));
  }

  lemma LastIsLatest(rows: seq<FeatureRow>, cutoff: int)
    requires rows != [] && StrictlyIncreasing(Targets(rows)) && rows[|rows| - 1].target < cutoff
    ensures AtOrAfter(rows[..|rows| - 1], cutoff) == []
  {
    var k := |rows| - 1;
    forall row | row in rows[..k]
      ensures row.target < cutoff
    {
      var j :| 0 <= j < k && rows[j] == row;
      assert Targets(rows)[j] < Targets(rows)[k];
    }
    AllBefore(rows[..k], cutoff);
  }

  lemma CutStep(front: seq<FeatureRow>, last: FeatureRow, cutoff: int)
    requires last.target < cutoff ==> AtOrAfter(front, cutoff) == []
    requires Before(front, cutoff) + AtOrAfter(front, cutoff) == front
    ensures Before(front + [last], cutoff) + AtOrAfter(front + [last], cutoff) == front + [last]
  {
    CutAppend(front, last, cutoff);
    hide Before, AtOrAfter;
    if last.target >= cutoff {
      var before, after := Before(front, cutoff), AtOrAfter(front, cutoff);
      assert before + (after + [last]) == (before + after) + [last];
    }
  }

  lemma CutAppend(front: seq<FeatureRow>, last: FeatureRow, cutoff: int)
    ensures Before(front + [last], cutoff) == if last.target < cutoff then Before(front, cutoff) + [last] else Before(front, cutoff)
    ensures AtOrAfter(front + [last], cutoff)
            == if last.target < cutoff then AtOrAfter(front, cutoff) else AtOrAfter(front, cutoff) + [last]
  {
    assert (front + [last])[..|front|] == front;
  }

  /** In time order the two filters are one cut: a prefix and the rest. */
  lemma {:induction false} FiltersCut(rows: seq<FeatureRow>, cutoff: int)
    requires StrictlyIncreasing(Targets(rows))
    ensures Before(rows, cutoff) + AtOrAfter(rows, cutoff) == rows
  {
    if rows != [] {
      var k := |rows| - 1;
      assert Targets(rows[..k]) == Targets(rows)[..k];
      FiltersCut(rows[..k], cutoff);
      if rows[k].target < cutoff {
        LastIsLatest(rows, cutoff);
      }
      CutStep(rows[..k], rows[k], cutoff);
      assert rows == rows[..k] + [rows[k]];
    }
  }

  lemma CoherentParts(front: seq<FeatureRow>, back: seq<FeatureRow>)
    requires Coherent(front + back)
    ensures Coherent(front) && Coherent(back)
  {
    var rows := front + back;
    CoherentSlice(rows, 0, |front|);
    CoherentSlice(rows, |front|, |rows|);
    assert rows[0..|front|] == front && rows[|front|..|rows|] == back;
  }

  /** A prefix before the cutoff and a suffix from it on, both usable by the later stages. */
  ghost predicate IsCut(rows: seq<FeatureRow>, cutoff: int, split: Split) {
    && split.training + split.evaluation == rows
    && split.training != [] && split.evaluation != []
    && (forall row :: row in split.training ==> row.target < cutoff)
    && (forall row :: row in split.evaluation ==> row.target >= cutoff)
    && Coherent(split.training) && Coherent(split.evaluation)
  }

  /** An accepted split is a cut of the rows at the cutoff. */
  lemma SplitIsCut(rows: seq<FeatureRow>, cutoff: int, split: Split)
    requires SplitRows(rows, cutoff) == Ok(split)
    ensures IsCut(rows, cutoff, split)
  {
    RowGuardExact(rows);
    FiltersCut(rows, cutoff);
    SidesOfCutoff(rows, cutoff);
    CoherentParts(split.training, split.evaluation);
  }

  /** What splitting any rows comes to: the cut, or the first thing that is wrong. */
  ghost predicate Splits(rows: seq<FeatureRow>, cutoff: int, r: Result<Split, Refusal>) {
    if rows == [] then r == Err(EmptyInput)
    else if !Coherent(rows) then r.Err? && RowsRefused(rows, r.error)
    else if forall row :: row in rows ==> row.target >= cutoff then r == Err(EmptyTraining)
    else if forall row :: row in rows ==> row.target < cutoff then r == Err(EmptyEvaluation)
    else r.Ok? && IsCut(rows, cutoff, r.value)
  }

  /** Coherent rows are split just when the cutoff leaves something on either side. */
  lemma SplitAccepts(rows: seq<FeatureRow>, cutoff: int)
    ensures Splits(rows, cutoff, SplitRows(rows, cutoff))
  {
    RowGuardExact(rows);
    SidesOfCutoff(rows, cutoff);
    NoMembers(Before(rows, cutoff));
    NoMembers(AtOrAfter(rows, cutoff));
    hide Before, AtOrAfter, Coherent, RowsRefused, IsCut, RowGuard;
    if SplitRows(rows, cutoff).Ok? {
      SplitIsCut(rows, cutoff, SplitRows(rows, cutoff).value);
    }
  }

  method SplitChronologically(rows: seq<FeatureRow>, cutoff: int) returns (r: Result<Split, Refusal>)
    ensures r == SplitRows(rows, cutoff)
    ensures Splits(rows, cutoff, r)
  {
    SplitAccepts(rows, cutoff);
    if rows == [] {
      return Err(EmptyInput);
    }
    var refusal := CheckRows(rows);
    if refusal.Some? {
      return Err(refusal.value);
    }
    var training := Before(rows, cutoff);
    var evaluation := AtOrAfter(rows, cutoff);
    if training == [] {
      return Err(EmptyTraining);
    }
    if evaluation == [] {
      return Err(EmptyEvaluation);
    }
    r := Ok(Split(training, evaluation));
  }

  lemma SameIdentity(history: seq<PriceRecord>)
    requires !Mixed(Markets(history)) && !Mixed(Currencies(history))
    ensures forall a, b :: a in history && b in history ==> a.marketId == b.marketId && a.currency == b.currency
  {
    MixedMeaning(Markets(history));
    MixedMeaning(Currencies(history));
    forall a, b | a in history && b in history
      ensures a.marketId == b.marketId && a.currency == b.currency
    {
      var i :| 0 <= i < |history| && history[i] == a;
      var j :| 0 <= j < |history| && history[j] == b;
      assert Markets(history)[i] == Markets(history)[j];
      assert Currencies(history)[i] == Currencies(history)[j];
    }
  }

  /** Built rows always pass the guards of the later stages. */
  lemma BuiltRowsCoherent(history: seq<PriceRecord>, rows: seq<FeatureRow>)
    requires BuildRows(history) == Ok(rows)
    ensures Coherent(rows) && RowGuard(rows) == None
  {
    BuiltRowsMeaning(history, rows);
    if history != [] {
      SameIdentity(history);
    }
    forall a, b | a in rows && b in rows
      ensures a.marketId == b.marketId && a.currency == b.currency
    {
      assert HasTriple(a, history) && HasTriple(b, history);
    }
    RowGuardExact(rows);
  }

  // ---------- fit ----------

  function Lag24h(rows: seq<FeatureRow>): Vec {
    Map((row: FeatureRow) => row.lag24h, rows)
  }

  function Lag168h(rows: seq<FeatureRow>): Vec {
    Map((row: FeatureRow) => row.lag168h, rows)
  }

  function Amounts(rows: seq<FeatureRow>): Vec {
    Map((row: FeatureRow) => row.amount, rows)
  }

  function FitRows(rows: seq<FeatureRow>): Result<Fit, Refusal> {
    if |rows| < 3 then Err(TooFewRows)
    else if RowGuard(rows).Some? then Err(RowGuard(rows).value)
    else
      match TwoFeatureOls(Lag24h(rows), Lag168h(rows), Amounts(rows))
      case Ok(fit) => Ok(fit)
      case Err(_) => Err(Refusal.SingularDesign)
  }

  /** What fitting any rows comes to: the unique least-squares parameters, or the first thing that is wrong. */
  ghost predicate Fits(rows: seq<FeatureRow>, r: Result<Fit, Refusal>) {
    if |rows| < 3 then r == Err(TooFewRows)
    else if !Coherent(rows) then r.Err? && RowsRefused(rows, r.error)
    else if Collinear(Lag24h(rows), Lag168h(rows)) then r == Err(Refusal.SingularDesign)
    else r.Ok? && UniqueMinimiser(r.value, Lag24h(rows), Lag168h(rows), Amounts(rows))
  }

  /**
   * The fit accepts exactly the coherent rows of full rank -- the row-count guard never refuses
   * a design that could be fitted -- and returns the unique least-squares parameters.
   */
  method FitTwoFeatures(rows: seq<FeatureRow>) returns (r: Result<Fit, Refusal>)
    ensures r == FitRows(rows)
    ensures Fits(rows, r)
    ensures r.Ok? <==> Coherent(rows) && !Collinear(Lag24h(rows), Lag168h(rows))
  {
    if |rows| < 3 {
      FewRowsCollinear(Lag24h(rows), Lag168h(rows));
      return Err(TooFewRows);
    }
    var refusal := CheckRows(rows);
    if refusal.Some? {
      return Err(refusal.value);
    }
    var fit := ComputeTwoFeatureOls(Lag24h(rows), Lag168h(rows), Amounts(rows));
    if fit.Err? {
      return Err(Refusal.SingularDesign);
    }
    r := Ok(fit.value);
  }

  /** The one-feature fit over the same rows; it does not read their 168-hour lag. */
  function FitLineRows(rows: seq<FeatureRow>): Result<LineFit, Refusal> {
    if |rows| < 2 then Err(TooFewRows)
    else if RowGuard(rows).Some? then Err(RowGuard(rows).value)
    else
      match OneFeatureOls(Lag24h(rows), Amounts(rows))
      case Ok(line) => Ok(line)
      case Err(_) => Err(Refusal.ZeroVariance)
  }

  ghost predicate BestLine(l: LineFit, x: Vec, y: Vec)
    requires |x| == |y|
  {
    forall other | other != l :: LineError(l, x, y) < LineError(other, x, y)
  }

  ghost predicate FitsLine(rows: seq<FeatureRow>, r: Result<LineFit, Refusal>) {
    if |rows| < 2 then r == Err(TooFewRows)
    else if !Coherent(rows) then r.Err? && RowsRefused(rows, r.error)
    else if !Varies(Lag24h(rows)) then r == Err(Refusal.ZeroVariance)
    else r.Ok? && BestLine(r.value, Lag24h(rows), Amounts(rows))
  }

  /** The line fit accepts exactly the coherent rows whose lag varies, and returns the best line. */
  method FitOneFeature(rows: seq<FeatureRow>) returns (r: Result<LineFit, Refusal>)
    ensures r == FitLineRows(rows)
    ensures FitsLine(rows, r)
    ensures r.Ok? <==> Coherent(rows) && Varies(Lag24h(rows))
  {
    if |rows| < 2 {
      return Err(TooFewRows);
    }
    var refusal := CheckRows(rows);
    if refusal.Some? {
      return Err(refusal.value);
    }
    var line := ComputeOneFeatureOls(Lag24h(rows), Amounts(rows));
    if line.Err? {
      return Err(Refusal.ZeroVariance);
    }
    r := Ok(line.value);
  }

  /** Rows the two-feature fit accepts are accepted by the line fit, which never has the smaller error. */
  lemma LineNeverBetter(rows: seq<FeatureRow>, fit: Fit)
    requires FitRows(rows) == Ok(fit)
    ensures FitLineRows(rows).Ok?
    ensures LineError(FitLineRows(rows).value, Lag24h(rows), Amounts(rows))
         >= SquaredError(fit, Lag24h(rows), Lag168h(rows), Amounts(rows))
  {
    var x1, x2, y := Lag24h(rows), Lag168h(rows), Amounts(rows);
    NestedAcceptance(x1, x2, y);
    NestingGap(x1, x2, y, fit, OneFeatureOls(x1, y).value, CentredMoments(x1, x2, y));
  }

  // ---------- predict ----------

  datatype Prediction = Prediction(marketId: string, currency: string, target: int, predicted: real, actual: real)

  function PredictionForRow(fit: Fit, row: FeatureRow): Prediction {
    Prediction(row.marketId, row.currency, row.target, Predict(fit, row.lag24h, row.lag168h), row.amount)
  }

  function PredictRows(fit: Fit, rows: seq<FeatureRow>): Result<seq<Prediction>, Refusal> {
    if rows == [] then Err(EmptyInput)
    else if RowGuard(rows).Some? then Err(RowGuard(rows).value)
    else Ok(Map(row => PredictionForRow(fit, row), rows))
  }

  /** `p` carries the row's identity and observed amount, and the fitted formula at its lags. */
  ghost predicate Forecasts(p: Prediction, fit: Fit, row: FeatureRow) {
    && p.marketId == row.marketId && p.currency == row.currency && p.target == row.target && p.actual == row.amount
    && p.predicted == fit.lag24h * row.lag24h + fit.lag168h * row.lag168h + fit.intercept
  }

  ghost predicate Predicts(fit: Fit, rows: seq<FeatureRow>, r: Result<seq<Prediction>, Refusal>) {
    if rows == [] then r == Err(EmptyInput)
    else if !Coherent(rows) then r.Err? && RowsRefused(rows, r.error)
    else r.Ok? && |r.value| == |rows| && forall i :: 0 <= i < |rows| ==> Forecasts(r.value[i], fit, rows[i])
  }

  lemma {:induction false} PredictedRows(fit: Fit, rows: seq<FeatureRow>)
    ensures var predictions := Map(row => PredictionForRow(fit, row), rows);
            |predictions| == |rows| && forall i :: 0 <= i < |rows| ==> Forecasts(predictions[i], fit, rows[i])
  {
    forall row ensures Forecasts(PredictionForRow(fit, row), fit, row) {
    }
    hide Forecasts, PredictionForRow;
  }

  method PredictEvaluation(fit: Fit, rows: seq<FeatureRow>) returns (r: Result<seq<Prediction>, Refusal>)
    ensures r == PredictRows(fit, rows)
    ensures Predicts(fit, rows, r)
  {
    if rows == [] {
      return Err(EmptyInput);
    }
    var refusal := CheckRows(rows);
    if refusal.Some? {
      return Err(refusal.value);
    }
    PredictedRows(fit, rows);
    hide Forecasts, PredictionForRow, Coherent, RowsRefused, RowGuard;
    r := Ok(Map(row => PredictionForRow(fit, row), rows));
  }

  // ---------- score ----------

  datatype MaeResult = MaeResult(caseCount: nat, currency: string, mae: real)

  function Abs(x: real): real {
    if x < 0.0 then -x else x
  }

  function TotalAbsoluteError(predictions: seq<Prediction>): real {
    if predictions == [] then 0.0
    else
      var last := predictions[|predictions| - 1];
      TotalAbsoluteError(predictions[..|predictions| - 1]) + Abs(last.predicted - last.actual)
  }

  function Times(x: real, count: nat): real {
    x * count as real
  }

  function MeanOf(total: real, count: nat): (mean: real)
    requires count > 0
    ensures mean * count as real == total
    ensures total >= 0.0 ==> mean >= 0.0
    ensures mean == 0.0 <==> total == 0.0
  {
    total / count as real
  }

  function PredictionMarkets(predictions: seq<Prediction>): seq<string> {
    Map((p: Prediction) => p.marketId, predictions)
  }

  function PredictionCurrencies(predictions: seq<Prediction>): seq<string> {
    Map((p: Prediction) => p.currency, predictions)
  }

  function PredictionTargets(predictions: seq<Prediction>): seq<int> {
    Map((p: Prediction) => p.target, predictions)
  }

  function PredictionGuard(predictions: seq<Prediction>): Option<Refusal> {
    IdentityGuard(PredictionMarkets(predictions), PredictionCurrencies(predictions), PredictionTargets(predictions))
  }

  /** One market, one currency, strict time order. */
  ghost predicate Scorable(predictions: seq<Prediction>) {
    && Same(PredictionMarkets(predictions)) && Same(PredictionCurrencies(predictions))
    && StrictlyIncreasing(PredictionTargets(predictions))
  }

  ghost predicate PredictionsRefused(predictions: seq<Prediction>, error: Refusal) {
    Guards(Some(error), PredictionMarkets(predictions), PredictionCurrencies(predictions), PredictionTargets(predictions))
  }

  /** What scoring any predictions comes to. */
  ghost predicate Scores(predictions: seq<Prediction>, r: Result<MaeResult, Refusal>) {
    if predictions == [] then r == Err(EmptyInput)
    else if !Scorable(predictions) then r.Err? && PredictionsRefused(predictions, r.error)
    else r.Ok? && r.value.caseCount == |predictions|
  }

  lemma ScoreAccepts(predictions: seq<Prediction>)
    ensures Scores(predictions, MeanAbsoluteError(predictions))
  {
    GuardMeaning(PredictionMarkets(predictions), PredictionCurrencies(predictions), PredictionTargets(predictions));
    hide IdentityGuard, PredictionMarkets, PredictionCurrencies, PredictionTargets, Same, StrictlyIncreasing, RepeatsAt, ReturnsAt;
  }

  function MeanAbsoluteError(predictions: seq<Prediction>): Result<MaeResult, Refusal> {
    if predictions == [] then Err(EmptyInput)
    else if PredictionGuard(predictions).Some? then Err(PredictionGuard(predictions).value)
    else Ok(MaeResult(|predictions|, predictions[0].currency,
                      MeanOf(TotalAbsoluteError(predictions), |predictions|)))
  }

  method AccumulateAbsoluteError(predictions: seq<Prediction>) returns (total: real)
    requires predictions != []
    ensures total == TotalAbsoluteError(predictions)
    ensures forall d :: d >= 0.0 && AllMissBy(predictions, d) ==> total == Times(d, |predictions|)
  {
    forall d | d >= 0.0 && AllMissBy(predictions, d) ensures TotalAbsoluteError(predictions) == Times(d, |predictions|) {
      TotalOfEqualMisses(predictions, d);
    }
    total := Abs(predictions[0].predicted - predictions[0].actual);
    assert predictions[..1][..0] == [];
    for i := 1 to |predictions|
      invariant total == TotalAbsoluteError(predictions[..i])
    {
      assert predictions[..i + 1][..i] == predictions[..i];
      total := total + Abs(predictions[i].predicted - predictions[i].actual);
    }
    assert predictions[..|predictions|] == predictions;
  }

  method EvaluateMae(predictions: seq<Prediction>) returns (r: Result<MaeResult, Refusal>)
    ensures r == MeanAbsoluteError(predictions)
    ensures Scores(predictions, r)
    ensures forall d :: r.Ok? && d >= 0.0 && AllMissBy(predictions, d) ==> r.value.mae == d
  {
    if predictions == [] {
      return Err(EmptyInput);
    }
    ScoreAccepts(predictions);
    var refusal := CheckIdentity(PredictionMarkets(predictions), PredictionCurrencies(predictions),
                                 PredictionTargets(predictions));
    if refusal.Some? {
      return Err(refusal.value);
    }
    var total := AccumulateAbsoluteError(predictions);
    r := Ok(MaeResult(|predictions|, predictions[0].currency, MeanOf(total, |predictions|)));
    forall d | d >= 0.0 && AllMissBy(predictions, d) ensures r.value.mae == d {
      MaeOfEqualMisses(predictions, r.value, d);
    }
  }

  lemma {:induction false} TotalErrorSign(predictions: seq<Prediction>)
    ensures TotalAbsoluteError(predictions) >= 0.0
    ensures TotalAbsoluteError(predictions) == 0.0 <==> forall p :: p in predictions ==> p.predicted == p.actual
  {
    if predictions != [] {
      var k := |predictions| - 1;
      TotalErrorSign(predictions[..k]);
      assert predictions == predictions[..k] + [predictions[k]];
    }
  }

  lemma {:induction false} MaeValue(predictions: seq<Prediction>, result: MaeResult)
    requires MeanAbsoluteError(predictions) == Ok(result)
    ensures result.caseCount == |predictions| > 0
    ensures result.mae == MeanOf(TotalAbsoluteError(predictions), |predictions|)
    ensures Times(result.mae, |predictions|) == TotalAbsoluteError(predictions)
  {
    hide PredictionGuard, TotalAbsoluteError;
  }

  /** The score is never negative, and is zero just for flawless predictions. */
  lemma MaeMeaning(predictions: seq<Prediction>, result: MaeResult)
    requires MeanAbsoluteError(predictions) == Ok(result)
    ensures result.mae >= 0.0
    ensures result.mae == 0.0 <==> forall p :: p in predictions ==> p.predicted == p.actual
  {
    MaeValue(predictions, result);
    TotalErrorSign(predictions);
  }

  /** Every prediction misses its actual by exactly `d`, above or below. */
  ghost predicate AllMissBy(predictions: seq<Prediction>, d: real) {
    forall p :: p in predictions ==> p.predicted == p.actual + d || p.predicted == p.actual - d
  }

  lemma {:induction false} TotalOfEqualMisses(predictions: seq<Prediction>, d: real)
    requires d >= 0.0 && AllMissBy(predictions, d)
    ensures TotalAbsoluteError(predictions) == Times(d, |predictions|)
  {
    if predictions != [] {
      TotalOfEqualMisses(predictions[..|predictions| - 1], d);
      TimesStep(d, |predictions| - 1);
      hide Times;
    }
  }

  lemma TimesStep(x: real, n: nat)
    ensures Times(x, n + 1) == Times(x, n) + x
    ensures Times(x, 0) == 0.0
  {
  }

  lemma TimesInjective(x: real, y: real, n: nat)
    requires n > 0 && Times(x, n) == Times(y, n)
    ensures x == y
  {
    Cancel(x, y, n as real);
  }

  /** Predictions that all miss by `d`, on either side, score `d`. */
  lemma {:induction false} MaeOfEqualMisses(predictions: seq<Prediction>, result: MaeResult, d: real)
    requires MeanAbsoluteError(predictions) == Ok(result) && d >= 0.0 && AllMissBy(predictions, d)
    ensures result.mae == d
  {
    MaeValue(predictions, result);
    TotalOfEqualMisses(predictions, d);
    hide *;
    TimesInjective(result.mae, d, |predictions|);
  }

  lemma {:induction false} TotalOfParts(a: seq<Prediction>, b: seq<Prediction>)
    ensures TotalAbsoluteError(a + b) == TotalAbsoluteError(a) + TotalAbsoluteError(b)
    decreases |b|
  {
    if b == [] {
      assert a + b == a;
    } else {
      TotalOfParts(a, b[..|b| - 1]);
      assert (a + b)[..|a + b| - 1] == a + b[..|b| - 1];
    }
  }

  lemma {:induction false} SameParts(a: seq<string>, b: seq<string>)
    requires Same(a + b)
    ensures Same(a) && Same(b)
  {
    var all := a + b;
    assert (forall i :: 0 <= i < |a| ==> a[i] == all[i]) && forall i :: 0 <= i < |b| ==> b[i] == all[|a| + i];
  }

  lemma {:induction false} IncreasingParts(a: seq<int>, b: seq<int>)
    requires StrictlyIncreasing(a + b)
    ensures StrictlyIncreasing(a) && StrictlyIncreasing(b)
  {
    var all := a + b;
    assert (forall i :: 0 <= i < |a| ==> a[i] == all[i]) && forall i :: 0 <= i < |b| ==> b[i] == all[|a| + i];
  }

  lemma {:induction false} PartsScorable(a: seq<Prediction>, b: seq<Prediction>)
    requires Scorable(a + b)
    ensures Scorable(a) && Scorable(b)
  {
    assert PredictionMarkets(a + b) == PredictionMarkets(a) + PredictionMarkets(b);
    assert PredictionCurrencies(a + b) == PredictionCurrencies(a) + PredictionCurrencies(b);
    assert PredictionTargets(a + b) == PredictionTargets(a) + PredictionTargets(b);
    hide PredictionMarkets, PredictionCurrencies, PredictionTargets, Same, StrictlyIncreasing;
    SameParts(PredictionMarkets(a), PredictionMarkets(b));
    SameParts(PredictionCurrencies(a), PredictionCurrencies(b));
    IncreasingParts(PredictionTargets(a), PredictionTargets(b));
  }

  lemma {:induction false} PartsScore(a: seq<Prediction>, b: seq<Prediction>)
    requires a != [] && b != [] && MeanAbsoluteError(a + b).Ok?
    ensures MeanAbsoluteError(a).Ok? && MeanAbsoluteError(b).Ok?
  {
    ScoreAccepts(a + b);
    ScoreAccepts(a);
    ScoreAccepts(b);
    hide MeanAbsoluteError, Scorable, PredictionsRefused;
    assert Scorable(a + b);
    PartsScorable(a, b);
  }

  /** Predictions that can be scored together can be scored apart, and the whole is the mean of the parts by case count. */
  lemma {:induction false} MaeOfParts(a: seq<Prediction>, b: seq<Prediction>, whole: MaeResult)
    requires a != [] && b != [] && MeanAbsoluteError(a + b) == Ok(whole)
    ensures MeanAbsoluteError(a).Ok? && MeanAbsoluteError(b).Ok?
    ensures Times(whole.mae, |a| + |b|)
         == Times(MeanAbsoluteError(a).value.mae, |a|) + Times(MeanAbsoluteError(b).value.mae, |b|)
  {
    hide *;
    PartsScore(a, b);
    MaeValue(a + b, whole);
    MaeValue(a, MeanAbsoluteError(a).value);
    MaeValue(b, MeanAbsoluteError(b).value);
    TotalOfParts(a, b);
  }

  /** The score is in the one currency that every prediction carries. */
  lemma MaeCurrency(predictions: seq<Prediction>, result: MaeResult, p: Prediction)
    requires MeanAbsoluteError(predictions) == Ok(result) && p in predictions
    ensures p.currency == result.currency
  {
    var currencies := Map((q: Prediction) => q.currency, predictions);
    MixedMeaning(currencies);
    var j :| 0 <= j < |predictions| && predictions[j] == p;
    assert currencies[0] == currencies[j];
  }

  // ---------- offline equals live ----------

  /** The live point that carries an offline prediction. */
  function AsPoint(p: Prediction, request: ForecastRequest): ForecastPoint {
    ForecastPoint(request.runId, p.marketId, request.generatedAt, p.target, p.predicted, p.currency)
  }

  /** For every built row the live forecast over the same history exists and equals the offline prediction. */
  lemma OfflineEqualsLive(request: ForecastRequest, rows: seq<FeatureRow>, row: FeatureRow, fit: Fit)
    requires BuildRows(request.history) == Ok(rows) && row in rows
    requires forall r :: r in request.history ==> r.marketId == request.marketId && r.currency == request.currency
    ensures PointForTarget(fit, request, row.target) == Ok(AsPoint(PredictionForRow(fit, row), request))
  {
    var history := request.history;
    var index := BuiltRowsFrom(history, rows);
    hide IndexOf, UniqueLag, Distinct, Timestamps, Predict, BuildRows;
    ScanAgreesWithIndex(history, row.target - LAG_24H, MissingLag24h, DuplicateLag24h);
    ScanAgreesWithIndex(history, row.target - LAG_168H, MissingLag168h, DuplicateLag168h);
    assert index[row.target] in history;
  }

  // ---------- the whole experiment ----------

  /** Built rows that lie on one plane. */
  ghost predicate OnPlane(g: Fit, rows: seq<FeatureRow>) {
    forall row :: row in rows ==> row.amount == Predict(g, row.lag24h, row.lag168h)
  }

  lemma PlaneColumns(g: Fit, rows: seq<FeatureRow>)
    requires OnPlane(g, rows)
    ensures Amounts(rows) == Predictions(g, Lag24h(rows), Lag168h(rows))
  {
    hide Predict;
    forall i | 0 <= i < |rows| ensures Amounts(rows)[i] == Predict(g, Lag24h(rows)[i], Lag168h(rows)[i]) {
      assert rows[i] in rows;
    }
  }

  lemma SplitOnPlane(g: Fit, rows: seq<FeatureRow>, part: seq<FeatureRow>)
    requires OnPlane(g, rows) && forall row :: row in part ==> row in rows
    ensures OnPlane(g, part)
  {
    hide Predict;
  }

  /**
   * If the built rows lie on a plane, then building, splitting, fitting, predicting and scoring give
   * back that plane and a score of zero, whenever the split and the fit accept.
   */
  lemma PlaneSurvivesPipeline(history: seq<PriceRecord>, rows: seq<FeatureRow>, cutoff: int, split: Split,
                              fit: Fit, g: Fit)
    requires BuildRows(history) == Ok(rows) && OnPlane(g, rows)
    requires SplitRows(rows, cutoff) == Ok(split) && FitRows(split.training) == Ok(fit)
    ensures fit == g
    ensures PredictRows(fit, split.evaluation).Ok?
    ensures MeanAbsoluteError(PredictRows(fit, split.evaluation).value)
         == Ok(MaeResult(|split.evaluation|, split.evaluation[0].currency, 0.0))
  {
    SplitIsCut(rows, cutoff, split);
    assert forall row :: row in split.training || row in split.evaluation ==> row in rows;
    hide Predict, SplitRows, BuildRows, TwoFeatureOls, Coherent, OnPlane;
    SplitOnPlane(g, rows, split.training);
    SplitOnPlane(g, rows, split.evaluation);
    PlaneColumns(g, split.training);
    PlaneRecovered(g, Lag24h(split.training), Lag168h(split.training), Amounts(split.training));
    RowGuardExact(split.evaluation);
    EvaluationIsFlawless(g, split.evaluation);
  }

  lemma EvaluationIsFlawless(g: Fit, rows: seq<FeatureRow>)
    requires rows != [] && Coherent(rows) && OnPlane(g, rows)
    ensures PredictRows(g, rows).Ok?
    ensures MeanAbsoluteError(PredictRows(g, rows).value) == Ok(MaeResult(|rows|, rows[0].currency, 0.0))
  {
    RowGuardExact(rows);
    var predictions := PredictRows(g, rows).value;
    assert PredictionMarkets(predictions) == RowMarkets(rows) && PredictionCurrencies(predictions) == RowCurrencies(rows);
    assert PredictionTargets(predictions) == Targets(rows);
    forall p | p in predictions
      ensures p.predicted == p.actual
    {
      var i :| 0 <= i < |rows| && predictions[i] == p;
      assert rows[i] in rows;
    }
    TotalErrorSign(predictions);
  }
}
