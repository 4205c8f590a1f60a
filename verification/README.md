# Energy trading platform: a verified model

A Dafny model of the parts of the platform whose correctness does not show in one function body. All
Dafny files are verified together; `dafny verify dfyconfig.toml` checks the whole project.

## What is modelled

* **Day-ahead price regression** (`Vectors`, `LeastSquares`, `LinearRegression`, `LagFeatures`,
  `DamPriceExperiment`). The lag-row builder, the chronological split, the two-feature and one-feature
  least-squares computations by accumulator loops, prediction, scoring and live inference, over exact
  reals.
* **The document vector index** (`Text`, `VectorPayload`, `Coalescing`, `VectorIndex`,
  `VectorIndexAlone`, `VectorIndexProtocol`, `VectorIndexErrors`, `VectorIndexSolo`). `index()` as a class over its
  collection; the same call as a state machine in which any number of callers interleave at every
  lookup and every point write, with backend failures and late writes anywhere; and the theorem that
  joins the two: a call left alone refines the sequential one.
* **Provider embeddings** (`ProviderOrdering`, `ChunkEmbedding`). Restoring request order by index, one
  vector per chunk, and index-entry preparation.
* **Structured consumption ingestion** (`SchemaResolver`, `HeaderResolution`, `HeaderDecisions`,
  `ConsumptionMapping`, `SchemaReports`, `SeriesValidation`, `SeriesGaps`, `SeriesVerdicts`, `GapReports`,
  `CsvIngestion`, `CsvReturns`, `CsvEscapingInput`, `CsvConservation`, `CsvFates`, `CsvReports`,
  `SourceTimezone`). Header resolution, unit safety, the CSV row loop over in-place lists, duplicate,
  alignment and gap detection, and localisation of naive timestamps; and what all of it returns, told by the
  fate of every row.
* **The consumption repository** (`ConsumptionRepository`). One transaction per batch over a keyed table.
* **Phase orchestration** (`AgentFailures`, `ParallelExecutor`, `WorkflowState`, `FailureHandling`,
  `WorkflowContext`, `WorkflowGraph`, `WorkflowRuns`). The task group under every interleaving of branch
  endings, nested exception groups, the strict failure chain, success recording and the routed graph.
  The ingestion phase and its forecasting twin are two instances of one phase definition.

`Wrappers` and `Ordering` hold the option, result, sequence and sorting vocabulary the rest shares.

A raising call is a `Result` whose error is the application error raised. Loops and objects that change
state are methods and classes proved against a specification function; the theorems are lemmas about
that function.

## Assumptions

Library functions the code calls enter as parameters: UUIDv5 point ids, SHA-256 fingerprints, UUID and
base-16 parsing, text lower-casing, header normalisation, similarity scores in [0, 1], and the reading of
a row's three cells. No hash is assumed injective in general: `VectorIndexAlone.IndexAloneExact`
holds whatever ids collide. Where two entries must not share a point id, the theorem says so of the entries
in that one batch; and two calls disagree when their *fingerprints* differ. Vector elements are exact reals, so there is no signed zero to compare equal and
hash differently.

A timezone is an initial offset and a finite list of transitions, with the thresholds `zoneinfo` uses for
fold 0 and fold 1 (PEP 495). `SourceTimezone.Spaced` says that each transition is over, on the clock,
before the next begins.

## Where code and documentation part

* A clock reading inside a forward change does not exist. The code refuses it, but in the branch that
  reports an *ambiguous* reading: the two folds already disagree, and the branch that reports a
  *nonexistent* one is never reached in a spaced zone. `SourceTimezone.LocalizeMeaning` states this.
* The row loop catches three exception families. Converting a timestamp such as
  `0001-01-01T00:00:00+05:00` to UTC raises another one, an overflow, which nothing up to the caller
  catches: the whole ingestion is lost, good rows included. `CsvReturns.IngestReturns` states exactly when
  an ingestion returns, by a condition on single rows, and `CsvEscapingInput.EarlyInstantLosesTheFile`
  gives the failing input; row conservation is proved on exactly the files that return.
* A branch that cancels itself, with no sibling failing, does not fail the task group; reading its result
  then raises the cancellation. The executor's documentation speaks of all branches succeeding or failing
  only. `ParallelExecutor.Interrupted` models it.
* A base exception that is neither ordinary nor a cancellation is not attributed. It reaches the group as
  it is, and extraction refuses it (or descends into it, when it is itself a group).

## Model

| member | source | states |
|---|---|---|
| LeastSquares.SolutionIsOrthogonal | src/energy_trading/ml/dam_price/lag_24h_168h_linear_regression.py:119-169 | the computed intercept and coefficients satisfy all three normal equations on the raw columns |
| LeastSquares.TwoFeatureOptimal | src/energy_trading/ml/dam_price/lag_24h_168h_linear_regression.py:119-169 | accepted exactly on designs of full rank, refused as singular otherwise; an accepted fit has a strictly smaller sum of squared errors than every other triple of parameters, for any number of rows |
| LeastSquares.RankGuardExact | src/energy_trading/ml/dam_price/lag_24h_168h_linear_regression.py:154-161 | the determinant is never negative, and is zero exactly when the two lag columns satisfy some non-trivial affine relation on all rows: the guard refuses exactly the designs without a unique fit |
| LeastSquares.FewRowsCollinear | src/energy_trading/ml/dam_price/lag_24h_168h_linear_regression.py:94-95 | any fewer than three rows satisfy such a relation, so the row-count guard refuses nothing that could be fitted |
| LeastSquares.OneFeatureAccepts | src/energy_trading/ml/dam_price/lag_24h_linear_regression.py:122-137 | the line fit is accepted exactly when the lag takes two different values, with two rows already; otherwise it is refused for zero variance |
| LeastSquares.PlaneRecovered | src/energy_trading/ml/dam_price/lag_24h_168h_linear_regression.py:119-169 | targets lying on a plane are fitted with exactly the parameters of that plane |
| LeastSquares.OneFeatureOptimal | src/energy_trading/ml/dam_price/lag_24h_linear_regression.py:116-143 | an accepted line has a strictly smaller sum of squared errors than every other line |
| LeastSquares.NestedAcceptance | src/energy_trading/ml/dam_price/lag_24h_linear_regression.py:122-139 | where the two-feature fit is accepted the one-feature fit cannot meet its zero-variance error |
| LeastSquares.NestingGap | src/energy_trading/ml/dam_price/lag_24h_168h_linear_regression.py:143-169 | dropping the second feature costs exactly (t2*s11 - t1*s12)^2 / (s11*determinant) of squared error, never less than nothing |
| LinearRegression.ComputeMean | src/energy_trading/ml/dam_price/lag_24h_168h_linear_regression.py:172-176 | the accumulating loop returns the mean of the column |
| LinearRegression.AccumulateMoments | src/energy_trading/ml/dam_price/lag_24h_168h_linear_regression.py:143-153 | the accumulator loop ends with the five centred second moments |
| LinearRegression.ComputeTwoFeatureOls | src/energy_trading/ml/dam_price/lag_24h_168h_linear_regression.py:119-169 | the loops return the specified fit or refusal; refused exactly on collinear columns, otherwise the unique minimiser |
| LinearRegression.AccumulateLine | src/energy_trading/ml/dam_price/lag_24h_linear_regression.py:122-139 | the accumulator loop ends with the centred moment of the lag with the target and with itself |
| LinearRegression.ComputeOneFeatureOls | src/energy_trading/ml/dam_price/lag_24h_linear_regression.py:116-143 | refused for zero variance exactly when the lag takes only one value; otherwise the line whose squared error is smaller than that of every other |
| LagFeatures.ChronologyExact | src/energy_trading/ml/dam_price/lag_24h_168h_linear_regression.py:213-220 | the adjacent-pair guard accepts exactly the strictly increasing timestamp sequences |
| LagFeatures.CheckChronology | src/energy_trading/ml/dam_price/lag_24h_168h_linear_regression.py:213-220 | the loop over `previous` refuses with the specified error |
| LagFeatures.ChronologyRefusal | src/energy_trading/ml/dam_price/lag_24h_168h_linear_regression.py:213-220 | the refusal names the first step that does not go forward: a repetition a duplicate, a step back out of order |
| LagFeatures.GuardMeaning | src/energy_trading/ml/dam_price/lag_24h_168h_chronological_feature_split.py:83-119 | the guards of every stage refuse two markets first, then two currencies, then the chronology, and pass exactly when there is none of these |
| LagFeatures.CheckIdentity | src/energy_trading/ml/dam_price/lag_24h_168h_chronological_feature_split.py:100-119 | the three guards, in that order, on any stage's markets, currencies and timestamps |
| LagFeatures.IndexOfIndexes | src/energy_trading/ml/dam_price/lag_24h_168h_features.py:112-120 | with distinct timestamps the dictionary holds every observation under its own timestamp and nothing else |
| LagFeatures.UniqueTimestampIndex | src/energy_trading/ml/dam_price/lag_24h_168h_features.py:112-120 | the dictionary loop succeeds exactly on distinct timestamps |
| LagFeatures.BuildFeatureRows | src/energy_trading/ml/dam_price/lag_24h_168h_features.py:82-120 | rows are built exactly for histories of one market, one currency and distinct timestamps; each other history is refused for the first of these it lacks |
| LagFeatures.BuiltRowsMeaning | src/energy_trading/ml/dam_price/lag_24h_168h_features.py:88-137 | a row is built exactly for each triple of observations at T, T-24h and T-168h, in strictly increasing target order |
| LagFeatures.BuildIgnoresOrder | src/energy_trading/ml/dam_price/lag_24h_168h_features.py:88-120 | permuting the history changes neither the rows nor the error |
| LagFeatures.ScanAgreesWithIndex | src/energy_trading/ml/dam_price/lag_24h_168h_ols_forecast.py:143-155 | on a history the builder accepts the live linear scan finds exactly what the dictionary holds, and never a duplicate |
| LagFeatures.RowExistsIffScansSucceed | src/energy_trading/ml/dam_price/lag_24h_168h_ols_forecast.py:107-155 | an observed target has a built row exactly when both of its live lag scans succeed |
| LagFeatures.UniqueLagMeaning | src/energy_trading/ml/dam_price/lag_24h_168h_ols_forecast.py:143-155 | on any history the scan returns the only observation at its instant, and refuses none and several with their own errors |
| LagFeatures.ForecastMeaning | src/energy_trading/ml/dam_price/lag_24h_168h_ols_forecast.py:107-155 | on any history a live forecast exists exactly when a day and a week before the target each have one observation, and is the fitted formula at these two; the first lag at fault names the refusal |
| DamPriceExperiment.RowGuardExact | src/energy_trading/ml/dam_price/lag_24h_168h_chronological_feature_split.py:83-119 | the identity and chronology guards pass exactly on rows of one market and one currency in strict time order, and otherwise name what is wrong |
| DamPriceExperiment.CheckRows | src/energy_trading/ml/dam_price/lag_24h_168h_chronological_feature_split.py:100-119 | coherent rows pass; any others are refused for the first thing wrong with them |
| DamPriceExperiment.SplitChronologically | src/energy_trading/ml/dam_price/lag_24h_168h_chronological_feature_split.py:76-97 | accepted exactly for coherent rows with a row on each side of the cutoff, and then the cut at the cutoff: two non-empty coherent parts whose concatenation is the input; no rows, incoherent rows, no training row and no evaluation row are refused apart |
| DamPriceExperiment.SplitIsCut | src/energy_trading/ml/dam_price/lag_24h_168h_chronological_feature_split.py:83-97 | an accepted split is a prefix before the cutoff and a suffix from it on, both non-empty, whose concatenation is the input |
| DamPriceExperiment.SplitAccepts | src/energy_trading/ml/dam_price/lag_24h_168h_chronological_feature_split.py:83-97 | which rows are split and what each other input is refused for |
| DamPriceExperiment.BuiltRowsCoherent | src/energy_trading/ml/dam_price/lag_24h_168h_features.py:82-137 | built rows always pass the guards of splitting, fitting and predicting |
| DamPriceExperiment.FitTwoFeatures | src/energy_trading/ml/dam_price/lag_24h_168h_linear_regression.py:88-116 | accepted exactly for coherent rows whose lag columns are not collinear, and then the unique least-squares parameters of those rows; too few, incoherent and rank-deficient rows are refused apart |
| DamPriceExperiment.FitOneFeature | src/energy_trading/ml/dam_price/lag_24h_linear_regression.py:75-93 | accepted exactly for coherent rows whose 24h lag takes two values, and then the best line; too few, incoherent and constant-lag rows are refused apart |
| DamPriceExperiment.LineNeverBetter | src/energy_trading/ml/dam_price/lag_24h_linear_regression.py:75-93 | rows the two-feature fit accepts are accepted by the line fit, whose squared error is never smaller |
| DamPriceExperiment.PredictEvaluation | src/energy_trading/ml/dam_price/lag_24h_168h_linear_regression_prediction.py:102-163 | guards in order, then for each row in order its identity, its observed amount and the fitted formula at its lags |
| DamPriceExperiment.AccumulateAbsoluteError | src/energy_trading/ml/dam_price/lag_24h_168h_linear_regression_evaluation.py:129-138 | the loop returns the total absolute error: when every prediction misses by d, on either side, d times their number |
| DamPriceExperiment.EvaluateMae | src/energy_trading/ml/dam_price/lag_24h_168h_linear_regression_evaluation.py:88-112 | scored exactly when there are predictions and they share one market and one currency in strict time order, each refusal apart; the case count is their number, and where every prediction misses by d the score is d |
| DamPriceExperiment.MaeOfEqualMisses | src/energy_trading/ml/dam_price/lag_24h_168h_linear_regression_evaluation.py:94-141 | predictions that all miss their actual by exactly d, above or below, score d |
| DamPriceExperiment.MaeOfParts | src/energy_trading/ml/dam_price/lag_24h_168h_linear_regression_evaluation.py:94-141 | predictions that can be scored together can be scored in two parts, and the whole score is the mean of the two weighted by case count |
| DamPriceExperiment.MaeMeaning | src/energy_trading/ml/dam_price/lag_24h_168h_linear_regression_evaluation.py:94-141 | the score is never negative and is zero exactly when every prediction equals its actual |
| DamPriceExperiment.MaeCurrency | src/energy_trading/ml/dam_price/lag_24h_168h_linear_regression_evaluation.py:94-112 | the reported currency is the currency of every prediction scored |
| DamPriceExperiment.OfflineEqualsLive | src/energy_trading/ml/dam_price/lag_24h_168h_linear_regression_prediction.py:118-163 | for every built row the live forecast over the same history exists and equals the offline prediction |
| DamPriceExperiment.PlaneSurvivesPipeline | src/energy_trading/ml/dam_price/lag_24h_168h_linear_regression_evaluation.py:94-141 | if the built rows lie on a plane, then build, split, fit, predict and evaluate return that plane's parameters and a mean absolute error of zero whenever split and fit accept |
| VectorPayload.PayloadRoundTrip | src/energy_trading/infrastructure/vector_store/qdrant/document_vector.py:272-316 | parsing the point made of any valid entry returns its chunk and fingerprint under its own id |
| VectorPayload.ParsedIsFiled | src/energy_trading/infrastructure/vector_store/qdrant/document_vector.py:292-316 | a parsed point carries the id that its own document and chunk identity determine |
| VectorPayload.ParseMeaning | src/energy_trading/infrastructure/vector_store/qdrant/document_vector.py:292-365 | a record is read exactly when its payload has the six fields and no others, well typed and in range, with a 64-character digest, under the id of its own identity; it then reads as just what it says, and everything else is unavailable |
| VectorPayload.ReadHitsMeaning | src/energy_trading/infrastructure/vector_store/qdrant/document_vector.py:175-187 | any list of hits is read, in ranked order, exactly when every hit is well formed and no two share document and chunk; otherwise the whole answer is unavailable |
| VectorPayload.Search | src/energy_trading/infrastructure/vector_store/qdrant/document_vector.py:155-187 | wrong dimension, unusable response, too many hits and bad hits are refused; otherwise each position returns the chunk of its hit |
| VectorPayload.SearchReadsBack | src/energy_trading/infrastructure/vector_store/qdrant/document_vector.py:155-187 | over a collection only `index` has written, distinct stored hits never meet the malformed or duplicate branch, and each position returns the chunk stored at that point |
| Coalescing.CoalesceMeaning | src/energy_trading/infrastructure/vector_store/qdrant/document_vector.py:229-239 | coalescing a consistent batch keeps every entry and leaves each identity once |
| Coalescing.FirstOccurrencesMeaning | src/energy_trading/infrastructure/vector_store/qdrant/document_vector.py:229-239 | what is kept are the elements at the first position of each identity, in source order, as a dictionary keeps its keys |
| Coalescing.CoalesceByKey | src/energy_trading/infrastructure/vector_store/qdrant/document_vector.py:229-239 | the dictionary loop refuses exactly the batches that disagree on an identity |
| VectorIndex.FileAnswer | src/energy_trading/infrastructure/vector_store/qdrant/document_vector.py:139-145 | the filing loop over whatever records the backend answered |
| VectorIndex.FilingMeaning | src/energy_trading/infrastructure/vector_store/qdrant/document_vector.py:139-145 | any answer, foreign or repeated records included, is filed exactly when every record is well formed and no two carry one id; then each record, and nothing else, is under its own id |
| VectorIndex.FilingStoredIds | src/energy_trading/infrastructure/vector_store/qdrant/document_vector.py:125-145 | a retrieval from a collection only `index` has written tells exactly which requested ids are stored and their fingerprints |
| VectorIndex.QdrantDocumentVectorIndex.SelectInserts | src/energy_trading/infrastructure/vector_store/qdrant/document_vector.py:94-103 | entries without a stored point are selected; a different fingerprint is a conflict |
| VectorIndex.QdrantDocumentVectorIndex.Upsert | src/energy_trading/infrastructure/vector_store/qdrant/document_vector.py:106-114 | insert-only: ids already stored keep their point |
| VectorIndex.QdrantDocumentVectorIndex.ConfirmInserts | src/energy_trading/infrastructure/vector_store/qdrant/document_vector.py:115-123 | the first unconfirmed entry decides the error |
| VectorIndex.QdrantDocumentVectorIndex.Index | src/energy_trading/infrastructure/vector_store/qdrant/document_vector.py:82-123 | the whole call returns and stores what the undisturbed specification says |
| VectorIndexAlone.IndexAloneMeaning | src/energy_trading/infrastructure/vector_store/qdrant/document_vector.py:82-123 | without interference a call succeeds exactly when the batch agrees with itself, the dimension and the collection; it then adds the missing points only, and otherwise leaves the collection untouched with the right error |
| VectorIndexAlone.IndexAloneExact | src/energy_trading/infrastructure/vector_store/qdrant/document_vector.py:82-123 | whatever point ids the entries share: the missing points are written exactly for batches that agree with themselves, the dimension and the collection, and the call then succeeds exactly when no two different new contents met under one id, which the check after writing finds |
| VectorIndexAlone.SelectAccepts | src/energy_trading/infrastructure/vector_store/qdrant/document_vector.py:94-103 | whatever was read back before writing: selection conflicts exactly on an entry read back with another fingerprint |
| VectorIndexAlone.SelectMeaning | src/energy_trading/infrastructure/vector_store/qdrant/document_vector.py:94-103 | and then selects, in order, exactly the entries that were not read back |
| VectorIndexAlone.VerifyMeaning | src/energy_trading/infrastructure/vector_store/qdrant/document_vector.py:115-123 | whatever was read back after writing: all is well exactly when every entry is there with its own fingerprint; the first that is not is unavailable when absent and a conflict when different |
| VectorIndexAlone.SuccessStoresEverything | src/energy_trading/infrastructure/vector_store/qdrant/document_vector.py:115-123 | after success every entry is stored with its own fingerprint, whatever point ids the entries share |
| VectorIndexAlone.RepeatWritesNothing | src/energy_trading/application/ports/document_vector_index.py:81 | repeating a successful call succeeds and writes nothing |
| VectorIndexAlone.RetryConverges | src/energy_trading/application/ports/document_vector_index.py:81-87 | after any partial insert, running the same batch again ends in the collection of one clean call |
| VectorIndexProtocol.StepKeeps | src/energy_trading/infrastructure/vector_store/qdrant/document_vector.py:82-145 | every step of every call, in any interleaving, keeps the invariant: only well-formed points are stored and each call's observations stay true |
| VectorIndexProtocol.RunKeeps | src/energy_trading/infrastructure/vector_store/qdrant/document_vector.py:82-145 | the invariant holds in every reachable state of any number of concurrent calls |
| VectorIndexProtocol.StoredPointsNeverChange | src/energy_trading/infrastructure/vector_store/qdrant/document_vector.py:106-114 | a stored point is the same in every later state of every run |
| VectorIndexProtocol.EntriesNeverChange | src/energy_trading/infrastructure/vector_store/qdrant/document_vector.py:82-92 | a call's supplied entries stay those it arrived with |
| VectorIndexProtocol.ReturnedStaysStored | src/energy_trading/infrastructure/vector_store/qdrant/document_vector.py:115-123 | a call that returned has each entry stored with its own fingerprint then and in all later states |
| VectorIndexProtocol.DisagreeingCallsNeverBothReturn | src/energy_trading/application/ports/document_vector_index.py:82-84 | two calls with different fingerprints under one point id can never both return normally |
| VectorIndexProtocol.ReadsNeverMalformed | src/energy_trading/infrastructure/vector_store/qdrant/document_vector.py:292-316 | no lookup of any run reads a malformed point |
| VectorIndexErrors.RefusalsAreDeserved | src/energy_trading/infrastructure/vector_store/qdrant/document_vector.py:87-123 | in every interleaving a refusal is deserved, when raised and ever after: a conflict means the supplied entries disagree with each other or one of them with what is stored under its id, an invalid request that their dimensions do not fit |
| VectorIndexErrors.UnfailedNeverUnavailable | src/energy_trading/infrastructure/vector_store/qdrant/document_vector.py:107-145 | a call whose own backend requests never fail is never unavailable, whatever other calls do meanwhile |
| VectorIndexSolo.SoloRunIsIndexAlone | src/energy_trading/infrastructure/vector_store/qdrant/document_vector.py:82-145 | a call left alone, whatever order its lookups and point writes take, returns or is refused exactly as the undisturbed specification says, with exactly its collection |
| VectorIndexSolo.AnyInterruptionIsRetried | src/energy_trading/application/ports/document_vector_index.py:81-87 | wherever a call left alone is interrupted, and whatever write lands late, its collection lies between start and clean result, and calling again reaches the clean result |
| SeriesValidation.DuplicateIndexes | src/energy_trading/infrastructure/adapters/structured/time_series/consumption.py:78-83 | the grouping loop finds exactly the positions sharing consumer and instant with another |
| SeriesValidation.AdjacentGaps | src/energy_trading/infrastructure/adapters/structured/time_series/consumption.py:86-119 | the loop over adjacent timestamps reports the gap of each pair that has one |
| SeriesValidation.GroupByConsumer | src/energy_trading/infrastructure/adapters/structured/time_series/consumption.py:86-95 | the dictionaries hold each consumer's own timestamps in source order |
| SeriesValidation.ValidateSeries | src/energy_trading/infrastructure/adapters/structured/time_series/consumption.py:31-65 | survivors, issues and gaps, with a duplicate named before a misalignment |
| SeriesVerdicts.ValidationMeaning | src/energy_trading/infrastructure/adapters/structured/time_series/consumption.py:48-65 | told by the candidates alone: the survivors are, in source order, those that no other candidate shares consumer and instant with and that lie a whole number of intervals from the anchor; each other one has one issue at its own source position, a duplicate named before a misalignment |
| SeriesGaps.SurvivorsDistinct | src/energy_trading/infrastructure/adapters/structured/time_series/consumption.py:48-60 | no two surviving candidates share consumer and instant |
| SeriesGaps.GapsAreComplement | src/energy_trading/infrastructure/adapters/structured/time_series/consumption.py:86-119 | for each consumer, surviving instants and the expansions of the reported gaps are disjoint and are together exactly the grid from first to last survivor |
| SeriesGaps.GapsCount | src/energy_trading/infrastructure/adapters/structured/time_series/consumption.py:105-119 | observed count plus the reported missing counts equals steps(first, last) + 1 |
| SeriesGaps.GapsAreMaximal | src/energy_trading/infrastructure/adapters/structured/time_series/consumption.py:105-119 | the grid instants just outside a reported gap are both observed |
| SeriesGaps.GapsAreOrdered | src/energy_trading/infrastructure/adapters/structured/time_series/consumption.py:86-102 | a consumer's gaps are reported in time order without overlap |
| GapReports.CoverageMeaning | src/energy_trading/infrastructure/adapters/structured/time_series/consumption.py:86-119 | told by the records alone: without a grid no gap is reported; with one, the reported instants are exactly the unobserved grid instants between two observations of a consumer, each gap carries its length, and observed and missing counts add up |
| GapReports.ReportOrder | src/energy_trading/infrastructure/adapters/structured/time_series/consumption.py:95-102 | gaps are reported consumer by consumer in name order, and in time order within each |
| SeriesGaps.OffsetIndex | src/energy_trading/infrastructure/adapters/structured/time_series/models.py:55-74 | offsetting by k intervals moves the lattice index by k, on the alignment and step arithmetic of the grid |
| CsvIngestion.AcceptedHeaderHasColumns | src/energy_trading/infrastructure/adapters/structured/csv/consumption.py:143-149 | an accepted header always gives the row loop its three in-range columns |
| CsvIngestion.ReadHeader | src/energy_trading/infrastructure/adapters/structured/csv/consumption.py:137-149 | header resolution, unit safety and the fatal-finding refusal |
| CsvIngestion.Buffers.IngestDataRow | src/energy_trading/infrastructure/adapters/structured/csv/consumption.py:170-211 | one data row appends one candidate, or one diagnostic and one dead-letter record, in place |
| CsvIngestion.Buffers.RefuseIssues | src/energy_trading/infrastructure/adapters/structured/csv/consumption.py:220-223 | one diagnostic and dead-letter record per series issue |
| CsvIngestion.Buffers.ReportGaps | src/energy_trading/infrastructure/adapters/structured/csv/consumption.py:224-225 | one error diagnostic per gap and no dead-letter record |
| CsvIngestion.ScanRows | src/energy_trading/infrastructure/adapters/structured/csv/consumption.py:133-159 | the row loop ends as the fold over the non-blank rows, a refused header, or an escaping row |
| CsvIngestion.ReadAndNormalize | src/energy_trading/infrastructure/adapters/structured/csv/consumption.py:122-168 | the whole read over in-place lists returns the specification, whose content is `CsvReports.IngestMeaning` |
| CsvReturns.IngestReturns | src/energy_trading/infrastructure/adapters/structured/csv/consumption.py:122-211 | an ingestion returns exactly when no data row of an accepted header's width raises an uncaught exception while its cells are read; otherwise the whole file is lost, and empty files and refused headers always return |
| CsvReturns.AcceptedReturns | src/energy_trading/infrastructure/adapters/structured/csv/consumption.py:133-211 | under an accepted header: returning is exactly the absence of an escaping row |
| CsvFates.LoopMeaning | src/energy_trading/infrastructure/adapters/structured/csv/consumption.py:170-211 | the row loop collects, in order, a candidate for exactly the rows that read, and a diagnostic with its dead-letter record for exactly the others: shape for a wrong width, validation for unreadable cells, under the row's number in the file |
| CsvReports.IngestMeaning | src/energy_trading/infrastructure/adapters/structured/csv/consumption.py:122-230 | everything a returned ingestion of an accepted file holds, from the fates of its rows: the records are the rows that read, share consumer and instant with no other such row, and lie on the grid; the dead-letter records are the rows the loop refused, then a reading failure, then the rows series validation refused, each with its reason; the diagnostics are the header's, then all that dead-letter records carry, then one for each gap in order; and the gaps are exactly what the records leave unobserved |
| CsvReports.CarriedIsReported | src/energy_trading/infrastructure/adapters/structured/csv/consumption.py:180-230 | every diagnostic a dead-letter record carries is also among the diagnostics |
| CsvReports.HeaderMeaning | src/energy_trading/infrastructure/adapters/structured/csv/consumption.py:137-149 | a header is accepted exactly when no required field is missing, no column ambiguous and no field named twice; a refused one gives no records, the whole report, and one schema dead-letter record with the fatal part of it |
| CsvReports.LineMeaning | src/energy_trading/infrastructure/adapters/structured/csv/consumption.py:133-136 | the lines of a file are exactly its rows that show a character other than whitespace, in order |
| CsvReports.BlankRowsIgnored | src/energy_trading/infrastructure/adapters/structured/csv/consumption.py:133-136 | a row that shows nothing may stand anywhere: the result, row numbers included, is the same without it |
| CsvReports.EmptyMeaning | src/energy_trading/infrastructure/adapters/structured/csv/consumption.py:160-168 | a file without lines gives nothing, or its reading failure alone |
| CsvEscapingInput.EarlyInstantLosesTheFile | src/energy_trading/infrastructure/adapters/structured/csv/consumption.py:186-211 | the input that shows the loss: under a plain header one row dated 0001-01-01T00:00:00+05:00, whose conversion overflows, loses the file however many good rows stand around it |
| CsvConservation.RowConservation | src/energy_trading/infrastructure/adapters/structured/csv/consumption.py:122-230 | under an accepted header, and unless a row escapes, the ingestion returns and every non-blank data row ends in exactly one of the records, the rows refused by the loop, or the rows refused by series validation; records come from their own rows in source order, and the dead-letter ids are exactly those of the refused rows and of the read failure |
| CsvConservation.DlqIdsDistinct | src/energy_trading/infrastructure/adapters/structured/csv/consumption.py:245-280 | unless a row escapes, the ingestion returns and all its dead-letter ids are different |
| CsvConservation.RecordsNeverConflict | src/energy_trading/infrastructure/persistence/postgres/consumption_repository.py:53-71 | unless a row escapes, the ingestion returns records with pairwise distinct keys, which pass normalisation unchanged and save without conflict |
| Text.DecimalInjective | src/energy_trading/infrastructure/adapters/structured/csv/consumption.py:259-264 | different row numbers are written differently, so row ids differ |
| Text.DecimalDenotes | src/energy_trading/infrastructure/adapters/structured/csv/consumption.py:259-264 | a row number is written in digits that denote it, without leading zero |
| Text.StripMeaning | src/energy_trading/infrastructure/adapters/structured/csv/consumption.py:302-303 | stripping takes whitespace off both ends, all of it, and nothing else |
| Ordering.StringLeMeaning | src/energy_trading/infrastructure/adapters/structured/time_series/consumption.py:96 | consumers and fields are ordered by code point: a prefix first, else the smaller first difference |
| SchemaResolver.RegisterNames | src/energy_trading/infrastructure/adapters/structured/schema_mapping/resolver.py:227-245 | the first pass is refused exactly when some canonical name normalises to nothing or two normalise alike, and otherwise registers exactly the canonical names |
| SchemaResolver.IndexAliases | src/energy_trading/infrastructure/adapters/structured/schema_mapping/resolver.py:246-271 | one field's aliases give its match targets and lookup entries, or stop the construction |
| SchemaResolver.BuildResolver | src/energy_trading/infrastructure/adapters/structured/schema_mapping/resolver.py:58-69 | construction succeeds exactly for thresholds in [0, 1] and specs with no empty token and no token naming two fields |
| HeaderResolution.ConfidenceIsBest | src/energy_trading/infrastructure/adapters/structured/schema_mapping/resolver.py:184-206 | a field's confidence is the best score over its own tokens, and is reached by one of them |
| HeaderResolution.RankFuzzyCandidates | src/energy_trading/infrastructure/adapters/structured/schema_mapping/resolver.py:184-206 | the ranking loops return the specified candidates by confidence and then name |
| HeaderResolution.ResolveHeader | src/energy_trading/infrastructure/adapters/structured/schema_mapping/resolver.py:78-140 | one header is resolved as specified |
| HeaderDecisions.ResolveMeaning | src/energy_trading/infrastructure/adapters/structured/schema_mapping/resolver.py:78-140 | every header meets exactly one decision: unresolved when blank, its owner for certain when it is a known token, a guess when one field wins by threshold and margin, unresolved when no field is credible, ambiguous otherwise |
| HeaderDecisions.ReportMeaning | src/energy_trading/infrastructure/adapters/structured/schema_mapping/resolver.py:104-140 | a scored header reports the leading field's confidence, and that field alone, or, when ambiguous, exactly the credible fields within the margin of it, best first |
| HeaderDecisions.SpellingIsBest | src/energy_trading/infrastructure/adapters/structured/schema_mapping/resolver.py:184-206 | a candidate is reported under a spelling of its own field that reaches its score |
| HeaderResolution.CoherentIgnoresOrder | src/energy_trading/infrastructure/adapters/structured/schema_mapping/resolver.py:220-291 | permuting the specs leaves construction success unchanged |
| HeaderResolution.ResolutionIgnoresOrder | src/energy_trading/infrastructure/adapters/structured/schema_mapping/resolver.py:78-140 | permuting the specs leaves every resolution unchanged |
| HeaderResolution.FuzzyResolvedWins | src/energy_trading/infrastructure/adapters/structured/schema_mapping/resolver.py:104-140 | a fuzzy RESOLVED result names a field whose score meets the threshold, precedes every other, and leads every other credible one by at least the margin |
| HeaderResolution.WinnerIsResolved | src/energy_trading/infrastructure/adapters/structured/schema_mapping/resolver.py:104-140 | conversely such a field is what the header resolves to |
| HeaderResolution.FuzzyUnresolved | src/energy_trading/infrastructure/adapters/structured/schema_mapping/resolver.py:104-115 | without an exact match a header is unresolved exactly when no field meets the threshold |
| HeaderResolution.ResolvedIsConfigured | src/energy_trading/infrastructure/adapters/structured/schema_mapping/resolver.py:78-140 | only configured fields are ever resolved to |
| HeaderResolution.CollectSources | src/energy_trading/infrastructure/adapters/structured/schema_mapping/resolver.py:154-162 | the dictionary loop files each resolved column under its field, fields in first-seen order |
| HeaderResolution.ResolveSchema | src/energy_trading/infrastructure/adapters/structured/schema_mapping/resolver.py:142-182 | the schema's resolutions, missing required fields and collisions |
| HeaderResolution.NoCollision | src/energy_trading/infrastructure/adapters/structured/schema_mapping/resolver.py:164-171 | no collision is reported exactly when no two columns resolved to one field |
| HeaderResolution.NothingMissing | src/energy_trading/infrastructure/adapters/structured/schema_mapping/resolver.py:172-177 | nothing is reported missing exactly when every required field has a column |
| SchemaReports.CollisionsMeaning | src/energy_trading/infrastructure/adapters/structured/schema_mapping/resolver.py:154-171 | a collision is reported for exactly the fields that two columns resolve to, with the headers of all their columns in column order |
| SchemaReports.CollisionOrder | src/energy_trading/infrastructure/adapters/structured/schema_mapping/resolver.py:164-171 | collisions come in field order, each field once |
| ConsumptionMapping.ApplyUnitSafety | src/energy_trading/infrastructure/adapters/structured/consumption_mapping.py:67-157 | a power column is kept exactly when its header claims no energy unit and no other power unit and, if it was guessed, ends in the configured one; every other column is kept; missing fields and collisions are recomputed |
| ConsumptionMapping.UnitSafetyExact | src/energy_trading/infrastructure/adapters/structured/consumption_mapping.py:67-157 | the same of every column of every schema |
| ConsumptionMapping.WordsMeaning | src/energy_trading/infrastructure/adapters/structured/consumption_mapping.py:132-133 | what `split` makes of a header: whitespace ends a word and adds none, and a text without whitespace after it is one more word |
| ConsumptionMapping.UnitSafetyOnlyDowngrades | src/energy_trading/infrastructure/adapters/structured/consumption_mapping.py:67-106 | unit safety leaves a column alone or turns a resolved power column into an unresolved one |
| ConsumptionMapping.UnitSafetyIdempotent | src/energy_trading/infrastructure/adapters/structured/consumption_mapping.py:67-106 | applying unit safety twice changes nothing more |
| ConsumptionMapping.AcceptedMeaning | src/energy_trading/infrastructure/adapters/structured/csv/consumption.py:306-356 | no fatal finding means no ambiguous column, no missing required field and no collision |
| SchemaReports.FindingsMeaning | src/energy_trading/infrastructure/adapters/structured/csv/consumption.py:306-356 | a schema after unit safety is reported for exactly what is wrong with its columns or was guessed about them: a required field without a column, two columns of one field, an ambiguous, an unresolved, a guessed column |
| SchemaReports.FindingsInOrder | src/energy_trading/infrastructure/adapters/structured/csv/consumption.py:306-356 | missing fields in profile order, then at most one finding for each column in column order, then collisions in name order |
| SchemaReports.FatalMeaning | src/energy_trading/infrastructure/adapters/structured/csv/consumption.py:306-356 | the fatal findings are exactly the missing, ambiguous and colliding ones |
| ConsumptionMapping.CanonicalColumnIndex | src/energy_trading/infrastructure/adapters/structured/consumption_mapping.py:109-119 | the loop builds the specified index |
| ConsumptionMapping.ColumnIndexMeaning | src/energy_trading/infrastructure/adapters/structured/consumption_mapping.py:109-119 | each field that a column resolved to is mapped to the last such column, and no other field is |
| ConsumptionMapping.AcceptedSchemaSound | src/energy_trading/infrastructure/adapters/structured/csv/consumption.py:306-356 | if a schema survives, its index maps exactly the three required fields to distinct in-range columns, which are the only resolved ones, and the power column is unit safe |
| ConsumptionRepository.PostgresConsumptionRepository.SaveMany | src/energy_trading/infrastructure/persistence/postgres/consumption_repository.py:35-50 | the transaction over the table returns and leaves what the specification says |
| ConsumptionRepository.PostgresConsumptionRepository.Insert | src/energy_trading/infrastructure/persistence/postgres/consumption_repository.py:87-92 | inserting with conflict-do-nothing keeps existing rows |
| ConsumptionRepository.PostgresConsumptionRepository.Check | src/energy_trading/infrastructure/persistence/postgres/consumption_repository.py:107-112 | the first missing or different stored row decides the error |
| ConsumptionRepository.SaveMeaning | src/energy_trading/infrastructure/persistence/postgres/consumption_repository.py:35-112 | a call commits its whole batch or changes nothing, and commits exactly when the batch agrees with itself and with the store |
| ConsumptionRepository.NormalizeIdentity | src/energy_trading/infrastructure/persistence/postgres/consumption_repository.py:53-71 | records with distinct keys pass normalisation unchanged |
| ConsumptionRepository.RunIsUnion | src/energy_trading/infrastructure/persistence/postgres/consumption_repository.py:35-112 | after any sequence of calls the table is the initial one plus exactly the committed batches, with no row ever replaced |
| ConsumptionRepository.CommittedReorder | src/energy_trading/infrastructure/persistence/postgres/consumption_repository.py:35-112 | any reordering of the committed batches commits them all and yields the same table |
| AgentFailures.ExtractAgentFailures | src/energy_trading/application/orchestration/parallel_ingestion_exception_group.py:26-44 | the recursive loop returns the specified failures or refusal |
| AgentFailures.ExtractMeaning | src/energy_trading/application/orchestration/parallel_ingestion_exception_group.py:26-44 | extraction yields exactly the leaves of the nested group in depth-first order, or refuses exactly because some leaf is unattributed |
| AgentFailures.ExtractReorder | src/energy_trading/application/orchestration/parallel_ingestion_exception_group.py:36-44 | whether a group is accepted, and the bag of its failures, do not depend on member order at the top |
| ParallelExecutor.RunConcurrently | src/energy_trading/application/orchestration/parallel_ingestion_executor.py:70-115 | the event loop collects errors in completion order and the results in branch order |
| ParallelExecutor.ReplayInvariant | src/energy_trading/application/orchestration/parallel_ingestion_executor.py:78-126 | at every moment the errors collected are those of the branches that ended in an exception, each once, under its own agent |
| ParallelExecutor.GroupMeaning | src/energy_trading/application/orchestration/parallel_ingestion_executor.py:78-126 | an execution fails exactly when some branch threw, and its group holds, in the order in which branches ended, what each threw: an ordinary exception under its agent's name, any other as it is |
| ParallelExecutor.ExecutionMeaning | src/energy_trading/application/orchestration/parallel_ingestion_executor.py:70-126 | under every interleaving the call succeeds exactly when every branch returned, with results in branch order; with a failure the group holds exactly the failing branches' exceptions; a cancellation alone interrupts it |
| ParallelExecutor.RaisingBranchesExtracted | src/energy_trading/application/orchestration/parallel_ingestion_executor.py:117-126 | with ordinary failures, extraction from the group yields exactly the raising branches, each once, whatever their siblings did meanwhile |
| ParallelExecutor.RaisingMeaning | src/energy_trading/application/orchestration/parallel_ingestion_executor.py:123-126 | a failure is reported exactly when a branch of that agent raised that cause |
| FailureHandling.PrepareMeaning | src/energy_trading/application/orchestration/parallel_ingestion_failure_context_preparation.py:46-66 | a policy context is prepared exactly for a group with one attributed leaf, and names that leaf's agent and code |
| FailureHandling.HandleMeaning | src/energy_trading/application/orchestration/parallel_ingestion_failure_action.py:31-49 | under any policy a snapshot becomes failed exactly when it is running in the phase and one attributed leaf meets the action FAIL; every other snapshot, group or action is refused and the rest of the snapshot is kept |
| FailureHandling.CodesTellCauses | src/energy_trading/application/orchestration/parallel_ingestion_failure_fact.py:68-86 | the facts of two failures of a phase are equal exactly when agent and cause are |
| FailureHandling.HandleIgnoresOrder | src/energy_trading/application/orchestration/parallel_ingestion_strict_single_failure_selector.py:36-44 | the order in which failures arrived does not matter |
| WorkflowContext.InMemoryWorkflowContext.RecordSuccess | src/energy_trading/infrastructure/orchestration/parallel_ingestion_context.py:45-59 | first write wins, equal retry succeeds, a different one conflicts |
| WorkflowContext.FirstWriteStands | src/energy_trading/infrastructure/orchestration/parallel_ingestion_context.py:45-59 | after any sequence of recordings the stored success of a workflow is the first ever recorded for it |
| WorkflowContext.RecordMeaning | src/energy_trading/infrastructure/orchestration/parallel_ingestion_context.py:45-59 | a recording succeeds exactly when it is, or equals, the first one for its workflow |
| WorkflowGraph.PhaseStep.Run | src/energy_trading/application/orchestration/parallel_ingestion_workflow.py:45-55 | resolve, execute, record, in that order |
| WorkflowGraph.PhaseStep.RunNode | src/energy_trading/application/orchestration/graph.py:202-210 | only an exception group reaches the failure handler; every other failure propagates |
| WorkflowGraph.CompiledWorkflowGraph.RunNode | src/energy_trading/application/orchestration/graph.py:194-228 | each node's body and which store it may change |
| WorkflowGraph.CompiledWorkflowGraph.Invoke | src/energy_trading/application/orchestration/graph.py:174-273 | running the compiled graph from its entry visits the nodes and leaves the stores the specification says |
| WorkflowRuns.PhaseSettles | src/energy_trading/application/orchestration/graph.py:202-224 | a phase's result and what it records depend only on how each branch ended |
| WorkflowRuns.PolicyIsTold | src/energy_trading/application/orchestration/parallel_ingestion_failure_fact.py:68-86 | when exactly one branch raised, the policy is told its agent and the code of its cause |
| WorkflowRuns.IngestionRun | src/energy_trading/application/orchestration/graph.py:129-273 | a run from ingestion/running ends as forecasting/running with that success recorded, ingestion/failed (exactly one raising branch), an invalid request (two or more), a cancellation, or a conflict; only the first records anything, and forecasting is never visited |
| WorkflowRuns.ForecastingRun | src/energy_trading/application/orchestration/graph.py:160-228 | the same for a run from forecasting/running and the two-branch executor |
| WorkflowRuns.RunConservative | src/energy_trading/application/orchestration/graph.py:174-273 | whatever the entry, agents and policy, a run keeps identity fields and diagnostics and every earlier success |
| WorkflowRuns.SessionKeeps | src/energy_trading/application/orchestration/graph.py:174-273 | over any sequence of runs, whose agents may end differently each time, a recorded success is never replaced, and only workflows that ran gain one |
| WorkflowRuns.IngestionRerun | src/energy_trading/application/orchestration/parallel_ingestion_workflow.py:45-55 | running the same ingestion again, with agents ending alike in whatever order, ends the same and records nothing more |
| WorkflowRuns.LaterRunKeepsTheFirst | src/energy_trading/infrastructure/orchestration/parallel_ingestion_context.py:45-59 | once an ingestion is recorded no later run changes it, and a later run conflicts exactly when all agents return and their results differ from the recorded ones |
| WorkflowRuns.IngestionIgnoresInterleaving | src/energy_trading/application/orchestration/parallel_ingestion_executor.py:78-115 | two interleavings in which every branch ends alike give the same run |
| ProviderOrdering.OrderProviderItems | src/energy_trading/infrastructure/embeddings/openai_document_embedding.py:57-74 | the indexing loop, set comparison and sort return the specified order or refusal |
| ProviderOrdering.GuardIsPermutation | src/energy_trading/infrastructure/embeddings/openai_document_embedding.py:71-72 | comparing the set of indexes with 0..n-1 accepts exactly the permutations |
| ProviderOrdering.AcceptedItems | src/energy_trading/infrastructure/embeddings/openai_document_embedding.py:57-74 | items are accepted exactly when their effective indexes are a permutation of 0..n-1 |
| ProviderOrdering.OrderedByIndex | src/energy_trading/infrastructure/embeddings/openai_document_embedding.py:73-74 | position i of the result holds the item with index i |
| ChunkEmbedding.EmbedChunks | src/energy_trading/infrastructure/embeddings/openai_document_embedding.py:33-54 | the whole embedding call, the empty batch needing no provider |
| ChunkEmbedding.EmbedOrdered | src/energy_trading/infrastructure/embeddings/openai_document_embedding.py:83-100 | one embedding per chunk in order, or the refusal of the first unusable item |
| ChunkEmbedding.EmbedAccepts | src/energy_trading/infrastructure/embeddings/openai_document_embedding.py:77-104 | a batch is embedded exactly when the indexes permute 0..n-1 and every item has a non-empty list of finite floats of one common length |
| ChunkEmbedding.EmbedMeaning | src/energy_trading/infrastructure/embeddings/openai_document_embedding.py:33-104 | an empty batch needs no provider; any other is embedded exactly when the provider answered with acceptable items, each chunk then with the vector sent under its position; a failed call and every other answer are unavailable |
| ChunkEmbedding.PrepareMeaning | src/energy_trading/application/orchestration/document_vector_index_entry_preparation.py:41-71 | preparing entries fails exactly when embedding does, in the same way, and never at the pairing |
| ChunkEmbedding.PairEntries | src/energy_trading/application/orchestration/document_vector_index_entry_preparation.py:56-71 | the pairing loop refuses at the first mismatch of identity |
| ChunkEmbedding.ToIndexEntriesMeaning | src/energy_trading/application/orchestration/document_vector_index_entry_preparation.py:56-71 | pairing succeeds exactly when counts and identities match at every position |
| ChunkEmbedding.PreparedIsFaithful | src/energy_trading/application/orchestration/document_vector_index_entry_preparation.py:41-71 | after a successful embedding the mismatch branch is never taken: one entry per chunk in order, each with the vector the provider sent under that position's index |
| SourceTimezone.LocalizeMeaning | src/energy_trading/infrastructure/adapters/structured/normalization/timezone.py:89-99 | a naive reading is accepted exactly when one UTC instant, and no other, shows it, and that instant is returned; gap and repeated readings alike end in the ambiguity error |
| SourceTimezone.NormalizeMeaning | src/energy_trading/infrastructure/adapters/structured/normalization/timezone.py:38-53 | any value, with or without a timezone, is accepted exactly when it stands for an instant, which is then the result: aware values always, naive ones only in a timezone in which one instant shows them; unparsed values, a missing timezone and disputed readings each have their own refusal |
| SourceTimezone.GapHasNoInstant | src/energy_trading/infrastructure/adapters/structured/normalization/timezone.py:89-99 | no instant shows a reading inside a forward change |
| SourceTimezone.RepetitionHasTwoInstants | src/energy_trading/infrastructure/adapters/structured/normalization/timezone.py:89-99 | two instants show a reading inside a backward change |
| SourceTimezone.ReadingsAgree | src/energy_trading/infrastructure/adapters/structured/normalization/timezone.py:38-53 | the local reading of an instant normalises to the same instant as the aware value, or is refused as ambiguous |
| SourceTimezone.LocalizeKeepsOrder | src/energy_trading/infrastructure/adapters/structured/normalization/timezone.py:89-99 | accepted readings keep their order as instants |

## Left out

- Rounding of `Decimal` and floats, non-finite values and their errors: exact reals stand for both, and vector elements are finite floats or refused ones.
- DamPriceExperiment.FitOneFeature: its rows carry no 168-hour lag in the code; here it takes the two-lag rows and does not read that lag.
- LagFeatures.BuiltRowsMeaning: subtracting a lag from the earliest representable instants raises an overflow error in the code; instants here are unbounded integers.
- SourceTimezone.LocalizeMeaning: instants are unbounded, and the rule a zone file gives for times after its last listed transition is a finite list of transitions here.
- SourceTimezone.ReadingsAgree: parsing timestamp text is not modelled; a source value is unparsed, aware or naive.
- DamPriceExperiment.OfflineEqualsLive: the live request's own validation is its single market and currency; forecasting several targets is this statement for each target.
- VectorIndex.FilingStoredIds: inside whole calls the backend answers one record per distinct stored id asked for; how any other answer is treated is `VectorIndex.FilingMeaning`.
- VectorIndexProtocol.ReturnedStaysStored: only `index` writes to the collection; other writers and deletions are not modelled.
- VectorPayload.Search: ranking is the backend's; the model takes the list it returns.
- CsvReturns.IngestReturns: which cells raise the uncaught exception is part of the given cell reader; opening the file and operating-system errors are left out; a decoding or parsing failure after some rows is a parameter. Source positions are natural numbers.
- CsvConservation.DlqIdsDistinct: payload references, messages and timestamps of dead-letter records are left out, as is writing them to disk.
- SchemaResolver.BuildResolver: type checks on the supplied specs and the specs' own field validation are left out.
- ConsumptionRepository.SaveMeaning: SQL, sessions and backend failures are left out; a transaction is a value that is kept or dropped, and calls run one after another.
- ParallelExecutor.ExecutionMeaning: cancelling the whole run from outside, and interpreter exit, are left out; agents enter as the way each branch ends.
- WorkflowGraph.CompiledWorkflowGraph.Invoke: the regulatory step enters as its outcome, its own store is left out, and concurrent runs of one graph are not modelled.
- FailureHandling.HandleMeaning: the attempt number is the constant the current source supplies.
- ChunkEmbedding.EmbedChunks: an iterator that raises something other than a type error while it is copied is left out.
- The Excel adapter, the consumer-load regression twins and the aligned-comparison modules have the shape of what is modelled and would add easy members.
- HTTP, routers, middleware, configuration, logging, migrations, caches, PDF extraction and agent internals are wiring or single-branch facts.
