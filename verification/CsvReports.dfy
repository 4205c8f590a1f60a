/** What an ingestion returns, whole: records, dead-letter records and diagnostics, from the fates of its rows. */
module CsvReports {
  import opened Wrappers
  import opened Text
  import opened SeriesValidation
  import opened SeriesVerdicts
  import opened GapReports
  import Ordering
  import opened ConsumptionMapping
  import opened SchemaReports
  import opened CsvIngestion
  import opened CsvReturns
  import opened CsvFates

  // ---------- from candidates to rows ----------

  ghost function KeptRows(cfg: Config, layout: Layout, data: seq<seq<string>>): set<nat>
    requires Columns(layout.index, layout.width)
  {
    set i: nat | i < |data| && FateOf(cfg, layout, data, i).Kept?
  }

  ghost function LoopRefused(cfg: Config, layout: Layout, data: seq<seq<string>>): set<nat>
    requires Columns(layout.index, layout.width)
  {
    set i: nat | i < |data| && FateOf(cfg, layout, data, i).RowRefused?
  }

  ghost function SeriesRefusedRows(cfg: Config, layout: Layout, data: seq<seq<string>>): set<nat>
    requires Columns(layout.index, layout.width)
  {
    set i: nat | i < |data| && FateOf(cfg, layout, data, i).SeriesRefused?
  }

  /** Twins among the candidates are twins among the rows. */
  lemma {:induction false} TwinsAgree(cfg: Config, layout: Layout, data: seq<seq<string>>, readable: seq<nat>,
                                      candidates: seq<Candidate>, k: nat)
    requires Columns(layout.index, layout.width) && Candidates(cfg, layout, data, readable, candidates) && k < |readable|
    ensures HasTwin(candidates, k) <==> RowHasTwin(cfg, layout, data, readable[k])
  {
    hide RowRecord, Columns;
    if j :| 0 <= j < |candidates| && j != k
            && candidates[j].record.consumerId == candidates[k].record.consumerId
            && candidates[j].record.timestamp == candidates[k].record.timestamp {
      assert readable[j] != readable[k];
    }
    if j, a, b :| 0 <= j < |data| && j != readable[k]
                  && RowRecord(cfg, layout, data[readable[k]]) == Some(a) && RowRecord(cfg, layout, data[j]) == Some(b)
                  && a.consumerId == b.consumerId && a.timestamp == b.timestamp {
      assert j in Readable(cfg, layout, data);
      var m :| 0 <= m < |readable| && readable[m] == j;
      assert candidates[m].record == b && candidates[k].record == a;
    }
  }

  /** A candidate's verdict is its row's fate. */
  lemma {:induction false} VerdictIsFate(cfg: Config, layout: Layout, data: seq<seq<string>>, readable: seq<nat>,
                                         candidates: seq<Candidate>, k: nat)
    requires Columns(layout.index, layout.width) && Candidates(cfg, layout, data, readable, candidates) && k < |readable|
    ensures readable[k] < |data| && |candidates| == |readable|
    ensures candidates[k].position == readable[k] + 2
    ensures FateOf(cfg, layout, data, readable[k])
            == match Verdict(candidates, cfg.grid, k)
               case None => Kept(candidates[k].record)
               case Some(code) => SeriesRefused(code)
  {
    TwinsAgree(cfg, layout, data, readable, candidates, k);
    hide HasTwin, RowHasTwin, OffGrid, Columns;
  }

  /** The rows of the candidates at `indexes`. */
  ghost function RowsAt(readable: seq<nat>, indexes: seq<nat>): (rows: seq<nat>)
    requires forall k :: 0 <= k < |indexes| ==> indexes[k] < |readable|
    ensures |rows| == |indexes|
  {
    seq(|indexes|, k requires 0 <= k < |indexes| => readable[indexes[k]])
  }

  lemma {:induction false} RowsAtEnumerate(readable: seq<nat>, indexes: seq<nat>, all: set<nat>, chosen: set<nat>, rows: set<nat>)
    requires Enumerates(readable, all) && Enumerates(indexes, chosen)
    requires forall k :: 0 <= k < |indexes| ==> indexes[k] < |readable|
    requires forall k :: 0 <= k < |readable| ==> (k in chosen <==> readable[k] in rows)
    requires forall i :: i in rows ==> i in all
    ensures Enumerates(RowsAt(readable, indexes), rows)
  {
    var result := RowsAt(readable, indexes);
    forall i | i in rows ensures i in result {
      var k :| 0 <= k < |readable| && readable[k] == i;
      var m :| 0 <= m < |indexes| && indexes[m] == k;
      assert result[m] == i;
    }
  }

  /** The rows of the surviving candidates, and of those with an issue. */
  lemma {:induction false} FatesOfCandidates(cfg: Config, layout: Layout, data: seq<seq<string>>, readable: seq<nat>,
                                             candidates: seq<Candidate>,
                          keptIndexes: seq<nat>, refusedIndexes: seq<nat>, series: Validation)
    returns (kept: seq<nat>, invalid: seq<nat>)
    requires Columns(layout.index, layout.width) && Candidates(cfg, layout, data, readable, candidates)
    requires Explains(candidates, cfg.grid, |candidates|, keptIndexes, refusedIndexes, series.valid, series.issues)
    ensures Enumerates(kept, KeptRows(cfg, layout, data)) && Enumerates(invalid, SeriesRefusedRows(cfg, layout, data))
    ensures |kept| == |series.valid| && |invalid| == |series.issues|
    ensures forall k :: 0 <= k < |kept| ==>
              kept[k] < |data| && FateOf(cfg, layout, data, kept[k]) == Kept(series.valid[k].record)
    ensures forall k :: 0 <= k < |invalid| ==>
              && invalid[k] < |data| && FateOf(cfg, layout, data, invalid[k]) == SeriesRefused(series.issues[k].code)
              && series.issues[k].position == invalid[k] + 2
  {
    kept, invalid := RowsAt(readable, keptIndexes), RowsAt(readable, refusedIndexes);
    forall k | 0 <= k < |readable|
      ensures readable[k] < |data| && candidates[k].position == readable[k] + 2
      ensures FateOf(cfg, layout, data, readable[k])
              == match Verdict(candidates, cfg.grid, k)
                 case None => Kept(candidates[k].record)
                 case Some(code) => SeriesRefused(code)
    {
      VerdictIsFate(cfg, layout, data, readable, candidates, k);
    }
    FatesAreReadable(cfg, layout, data);
    hide FateOf, Verdict, Columns;
    RowsAtEnumerate(readable, keptIndexes, Readable(cfg, layout, data), KeptAmong(candidates, cfg.grid, |candidates|),
                    KeptRows(cfg, layout, data));
    RowsAtEnumerate(readable, refusedIndexes, Readable(cfg, layout, data), RefusedAmong(candidates, cfg.grid, |candidates|),
                    SeriesRefusedRows(cfg, layout, data));
  }

  lemma {:induction false} FatesAreReadable(cfg: Config, layout: Layout, data: seq<seq<string>>)
    requires Columns(layout.index, layout.width)
    ensures forall i :: i in KeptRows(cfg, layout, data) || i in SeriesRefusedRows(cfg, layout, data) ==> i in Readable(cfg, layout, data)
    ensures LoopRefused(cfg, layout, data) == Unreadable(cfg, layout, data)
  {
    hide RowHasTwin, OffGrid, RowRecord, RowRefusal, Columns;
  }

  // ---------- dead-letter records and diagnostics ----------

  /** What a refused row's fate is reported as. */
  ghost predicate ReportedAs(fate: Fate, d: Diagnostic) {
    match fate
    case RowRefused(reason) => d == reason
    case SeriesRefused(code) => d == SeriesDiagnostic(code)
    case _ => false
  }

  /** The dead-letter record of data row `i`, whose fate is `fate`; the first data row is row 2 of the file. */
  ghost predicate IsDlqOf(cfg: Config, fate: Fate, i: nat, record: Dlq) {
    && record.recordId == cfg.sourceName + ":row:" + Decimal(i + 2)
    && |record.diagnostics| == 1 && ReportedAs(fate, record.diagnostics[0])
  }

  /** One dead-letter record for each of the rows, in order, carrying what became of it. */
  ghost predicate DlqsOf(cfg: Config, layout: Layout, data: seq<seq<string>>, rows: seq<nat>, dlq: seq<Dlq>)
    requires Columns(layout.index, layout.width)
  {
    && |dlq| == |rows|
    && forall k :: 0 <= k < |rows| ==>
         rows[k] < |data| && IsDlqOf(cfg, FateOf(cfg, layout, data, rows[k]), rows[k], dlq[k])
  }

  /** The dead-letter record of a reading that broke off. */
  function BrokenOff(cfg: Config, ending: Ending): seq<Dlq> {
    match ending
    case EndOfInput => []
    case DecodeFailed => [Dlq(cfg.sourceName + ":source", [SourceDecodeFailed])]
    case ParseFailed => [Dlq(cfg.sourceName + ":source", [SourceParseFailed])]
  }

  /** All diagnostics that dead-letter records carry, in order. */
  function Carried(dlq: seq<Dlq>): seq<Diagnostic> {
    if dlq == [] then [] else Carried(dlq[..|dlq| - 1]) + dlq[|dlq| - 1].diagnostics
  }

  lemma {:induction false} CarriedSingles(dlq: seq<Dlq>, diagnostics: seq<Diagnostic>)
    requires |dlq| == |diagnostics| && forall k :: 0 <= k < |dlq| ==> dlq[k].diagnostics == [diagnostics[k]]
    ensures Carried(dlq) == diagnostics
  {
    if dlq != [] {
      CarriedSingles(dlq[..|dlq| - 1], diagnostics[..|dlq| - 1]);
    }
  }

  lemma {:induction false} CarriedMembers(dlq: seq<Dlq>, record: Dlq, d: Diagnostic)
    requires record in dlq && d in record.diagnostics
    ensures d in Carried(dlq)
  {
    if record != dlq[|dlq| - 1] {
      CarriedMembers(dlq[..|dlq| - 1], record, d);
    }
  }

  /** The gaps' diagnostics, one each. */
  function GapCounts(gaps: seq<Gap>): seq<Diagnostic> {
    seq(|gaps|, k requires 0 <= k < |gaps| => MissingIntervalGap(gaps[k].missingCount))
  }

  /** Everything `result` holds, given the rows that were kept, refused by the loop, and refused by series validation. */
  ghost predicate Accounts(cfg: Config, layout: Layout, data: seq<seq<string>>, ending: Ending, result: Ingested,
                           kept: seq<nat>, refused: seq<nat>, invalid: seq<nat>)
    requires Columns(layout.index, layout.width)
  {
    && Enumerates(kept, KeptRows(cfg, layout, data))
    && Enumerates(refused, LoopRefused(cfg, layout, data))
    && Enumerates(invalid, SeriesRefusedRows(cfg, layout, data))
    && |result.records| == |kept|
    && (forall k :: 0 <= k < |kept| ==> kept[k] < |data| && FateOf(cfg, layout, data, kept[k]) == Kept(result.records[k]))
    && var m, n := |refused|, |refused| + |BrokenOff(cfg, ending)|;
       && |result.dlq| == n + |invalid|
       && DlqsOf(cfg, layout, data, refused, result.dlq[..m])
       && result.dlq[m..n] == BrokenOff(cfg, ending)
       && DlqsOf(cfg, layout, data, invalid, result.dlq[n..])
  }

  /** The gaps that are reported, told by the records. */
  ghost predicate GapsAccount(cfg: Config, records: seq<Record>, gaps: seq<Gap>) {
    && (if cfg.grid.None? then gaps == [] else Covers(cfg.grid.value, records, gaps))
    && ReportedInOrder(gaps)
  }

  /** The diagnostics: those of the header, those the dead-letter records carry, and one for each gap. */
  ghost predicate Reports(layout: Layout, result: Ingested, gaps: seq<Gap>) {
    result.diagnostics == layout.start.diagnostics + Carried(result.dlq) + GapCounts(gaps)
  }

  lemma {:induction false} IssueDlqs(cfg: Config, layout: Layout, data: seq<seq<string>>, invalid: seq<nat>, issues: seq<Issue>)
    requires Columns(layout.index, layout.width) && |invalid| == |issues|
    requires forall k :: 0 <= k < |invalid| ==>
               && invalid[k] < |data| && FateOf(cfg, layout, data, invalid[k]) == SeriesRefused(issues[k].code)
               && issues[k].position == invalid[k] + 2
    ensures DlqsOf(cfg, layout, data, invalid, IssueDlq(cfg, issues))
  {
    hide FateOf, Columns, Decimal;
    var dlq := IssueDlq(cfg, issues);
    forall k | 0 <= k < |invalid| ensures IsDlqOf(cfg, FateOf(cfg, layout, data, invalid[k]), invalid[k], dlq[k]) {
      assert dlq[k] == Dlq(RowId(cfg.sourceName, issues[k].position), [SeriesDiagnostic(issues[k].code)]);
    }
  }

  lemma {:induction false} RefusalDlqs(cfg: Config, layout: Layout, data: seq<seq<string>>, refused: seq<nat>,
                                       dlq: seq<Dlq>, added: seq<Diagnostic>)
    requires Columns(layout.index, layout.width) && Refusals(cfg, layout, data, refused, dlq, added)
    ensures DlqsOf(cfg, layout, data, refused, dlq)
    ensures Enumerates(refused, LoopRefused(cfg, layout, data))
  {
    FatesAreReadable(cfg, layout, data);
    hide RowRecord, RowRefusal, Columns, RowHasTwin, OffGrid, Decimal, Enumerates, LoopRefused, Unreadable;
    forall k | 0 <= k < |refused| ensures IsDlqOf(cfg, FateOf(cfg, layout, data, refused[k]), refused[k], dlq[k]) {
      assert FateOf(cfg, layout, data, refused[k]) == RowRefused(added[k]);
    }
  }

  /** Appending the reading failure and the series issues keeps diagnostics and dead-letter records in step. */
  lemma {:induction false} StepTogether(cfg: Config, st: State, start: seq<Diagnostic>, added: seq<Diagnostic>,
                                        ending: Ending, result: Ingested)
    requires st.diagnostics == start + added && |st.dlq| == |added|
    requires forall k :: 0 <= k < |added| ==> st.dlq[k].diagnostics == [added[k]]
    requires result == WithSeriesValidation(cfg, AfterEnding(cfg, st, ending))
    ensures var series := Validated(st.candidates, cfg.grid);
            && result.dlq == st.dlq + BrokenOff(cfg, ending) + IssueDlq(cfg, series.issues)
            && result.diagnostics == start + Carried(result.dlq) + GapCounts(series.gaps)
            && result.records == RecordsOf(series.valid)
  {
    var series := Validated(st.candidates, cfg.grid);
    hide Validated, IssueDiagnostics, IssueDlq, GapDiagnostics, GapCounts;
    var broken := EndingDiagnostics(ending);
    EndsWith(cfg, st, ending);
    IssuesInStep(cfg, series.issues);
    BrokenInStep(cfg, ending);
    assert result.dlq == st.dlq + BrokenOff(cfg, ending) + IssueDlq(cfg, series.issues);
    CarriedSingles(result.dlq, added + broken + IssueDiagnostics(series.issues));
    CountsAreDiagnostics(series.gaps);
    assert start + added + broken + IssueDiagnostics(series.issues) == start + (added + broken + IssueDiagnostics(series.issues));
  }

  function EndingDiagnostics(ending: Ending): seq<Diagnostic> {
    if EndingDiagnostic(ending).Some? then [EndingDiagnostic(ending).value] else []
  }

  lemma {:induction false} EndsWith(cfg: Config, st: State, ending: Ending)
    ensures AfterEnding(cfg, st, ending)
            == State(st.candidates, st.diagnostics + EndingDiagnostics(ending), st.dlq + BrokenOff(cfg, ending))
  {
    assert st.diagnostics + [] == st.diagnostics && st.dlq + [] == st.dlq;
  }

  lemma {:induction false} IssuesInStep(cfg: Config, issues: seq<Issue>)
    ensures |IssueDlq(cfg, issues)| == |IssueDiagnostics(issues)|
    ensures forall k :: 0 <= k < |issues| ==> IssueDlq(cfg, issues)[k].diagnostics == [IssueDiagnostics(issues)[k]]
    ensures |IssueDlq(cfg, issues)| == |issues|
  {
  }

  lemma {:induction false} BrokenInStep(cfg: Config, ending: Ending)
    ensures |BrokenOff(cfg, ending)| == |EndingDiagnostics(ending)|
    ensures forall k :: 0 <= k < |BrokenOff(cfg, ending)| ==> BrokenOff(cfg, ending)[k].diagnostics == [EndingDiagnostics(ending)[k]]
  {
  }

  lemma {:induction false} CountsAreDiagnostics(gaps: seq<Gap>)
    ensures GapDiagnostics(gaps) == GapCounts(gaps)
  {
  }

  lemma {:induction false} LoopAccounts(cfg: Config, layout: Layout, data: seq<seq<string>>, st: State,
                                        ending: Ending, result: Ingested,
                     readable: seq<nat>, refused: seq<nat>, added: seq<Diagnostic>)
    returns (kept: seq<nat>, invalid: seq<nat>, gaps: seq<Gap>)
    requires Columns(layout.index, layout.width) && Collected(cfg, layout, data, st, readable, refused, added)
    requires result == WithSeriesValidation(cfg, AfterEnding(cfg, st, ending))
    ensures Accounts(cfg, layout, data, ending, result, kept, refused, invalid)
    ensures Reports(layout, result, gaps) && GapsAccount(cfg, result.records, gaps)
  {
    var series := Validated(st.candidates, cfg.grid);
    gaps := series.gaps;
    var keptIndexes, refusedIndexes := ValidationMeaning(st.candidates, cfg.grid);
    kept, invalid := FatesOfCandidates(cfg, layout, data, readable, st.candidates, keptIndexes, refusedIndexes, series);
    RefusalDlqs(cfg, layout, data, refused, st.dlq, added);
    IssueDlqs(cfg, layout, data, invalid, series.issues);
    StepTogether(cfg, st, layout.start.diagnostics, added, ending, result);
    CoverageMeaning(st.candidates, cfg.grid);
    ReportOrder(st.candidates, cfg.grid);
    hide *;
    hide Validated;
    PartsAccount(cfg, layout, data, st, ending, result, series, kept, refused, invalid);
  }

  lemma {:induction false} PartsAccount(cfg: Config, layout: Layout, data: seq<seq<string>>, st: State,
                                        ending: Ending, result: Ingested, series: Validation,
                     kept: seq<nat>, refused: seq<nat>, invalid: seq<nat>)
    requires Columns(layout.index, layout.width)
    requires Enumerates(kept, KeptRows(cfg, layout, data)) && Enumerates(invalid, SeriesRefusedRows(cfg, layout, data))
    requires Enumerates(refused, LoopRefused(cfg, layout, data))
    requires |kept| == |series.valid| && result.records == RecordsOf(series.valid)
    requires forall k :: 0 <= k < |kept| ==>
               kept[k] < |data| && FateOf(cfg, layout, data, kept[k]) == Kept(series.valid[k].record)
    requires DlqsOf(cfg, layout, data, refused, st.dlq) && DlqsOf(cfg, layout, data, invalid, IssueDlq(cfg, series.issues))
    requires result.dlq == st.dlq + BrokenOff(cfg, ending) + IssueDlq(cfg, series.issues)
    ensures Accounts(cfg, layout, data, ending, result, kept, refused, invalid)
  {
    hide FateOf, Enumerates, Columns, IssueDlq, BrokenOff;
    var m, n := |refused|, |refused| + |BrokenOff(cfg, ending)|;
    assert |st.dlq| == |refused| && |IssueDlq(cfg, series.issues)| == |invalid|;
    assert result.dlq[..m] == st.dlq && result.dlq[m..n] == BrokenOff(cfg, ending)
           && result.dlq[n..] == IssueDlq(cfg, series.issues);
  }

  // ---------- main results ----------

  /**
   * Under an accepted header, and unless a row escapes, the ingestion returns, and each row's fate decides
   * the rest. The records are the kept rows, in order; the dead-letter records are the rows refused by the
   * loop, then a reading failure, then the rows refused by series validation, each with its reason; and the
   * diagnostics are the header's, then all that dead-letter records carry, then one for each gap.
   */
  lemma {:induction false} IngestMeaning(cfg: Config, rows: seq<seq<string>>, ending: Ending, layout: Layout)
    returns (result: Ingested, kept: seq<nat>, refused: seq<nat>, invalid: seq<nat>, gaps: seq<Gap>)
    requires ValidConfig(cfg) && AcceptedFile(cfg, rows, layout)
    requires forall row :: row in DataRows(rows) ==> !Escapes(cfg, layout, row)
    ensures Ingest(cfg, rows, ending) == Ok(result) && Columns(layout.index, layout.width)
    ensures Accounts(cfg, layout, DataRows(rows), ending, result, kept, refused, invalid)
    ensures Reports(layout, result, gaps) && GapsAccount(cfg, result.records, gaps)
  {
    AcceptedReturns(cfg, rows, ending, layout);
    result := Ingest(cfg, rows, ending).value;
    var st := IngestIsFold(cfg, rows, ending, layout, result);
    var readable, added;
    readable, refused, added := LoopMeaning(cfg, layout, DataRows(rows), st);
    kept, invalid, gaps := LoopAccounts(cfg, layout, DataRows(rows), st, ending, result, readable, refused, added);
  }

  /** Whatever a dead-letter record carries is also among the diagnostics. */
  lemma {:induction false} CarriedIsReported(layout: Layout, result: Ingested, gaps: seq<Gap>, record: Dlq, d: Diagnostic)
    requires Reports(layout, result, gaps) && record in result.dlq && d in record.diagnostics
    ensures d in result.diagnostics
  {
    CarriedMembers(result.dlq, record, d);
  }

  // ---------- the header ----------

  /** `diagnostics` tells exactly the findings that the header's columns deserve, of the kinds in `codes`. */
  ghost predicate Tells(diagnostics: seq<Diagnostic>, cfg: Config, header: seq<string>, codes: set<Code>) {
    forall d :: d in diagnostics <==>
      d.SchemaDiagnostic? && d.finding.code in codes && Deserved(HeaderSchema(cfg, header).resolutions, d.finding)
  }

  const ALL_CODES := {MissingRequiredField, SchemaAmbiguous, SchemaCollision, UnresolvedColumn, FuzzyFieldResolution}
  const FATAL_CODES := {MissingRequiredField, SchemaAmbiguous, SchemaCollision}

  lemma {:induction false} ReportMembers(findings: seq<Finding>, d: Diagnostic)
    ensures d in Report(findings) <==> d.SchemaDiagnostic? && d.finding in findings
  {
    if d in Report(findings) {
      var k :| 0 <= k < |findings| && Report(findings)[k] == d;
      assert findings[k] in findings;
    }
    if d.SchemaDiagnostic? && d.finding in findings {
      var k :| 0 <= k < |findings| && findings[k] == d.finding;
      assert Report(findings)[k] == d;
    }
  }

  lemma {:induction false} HeaderTells(cfg: Config, header: seq<string>)
    ensures Tells(Report(SchemaFindings(HeaderSchema(cfg, header))), cfg, header, ALL_CODES)
    ensures Tells(Report(FatalFindings(HeaderSchema(cfg, header))), cfg, header, FATAL_CODES)
  {
    hide HeaderSchema, SchemaFindings, FatalFindings, Deserved, Report;
    forall d: Diagnostic
      ensures d in Report(SchemaFindings(HeaderSchema(cfg, header))) <==>
              d.SchemaDiagnostic? && d.finding.code in ALL_CODES && Deserved(HeaderSchema(cfg, header).resolutions, d.finding)
      ensures d in Report(FatalFindings(HeaderSchema(cfg, header))) <==>
              d.SchemaDiagnostic? && d.finding.code in FATAL_CODES && Deserved(HeaderSchema(cfg, header).resolutions, d.finding)
    {
      HeaderTellsOne(cfg, header, d);
    }
  }

  lemma {:induction false} HeaderTellsOne(cfg: Config, header: seq<string>, d: Diagnostic)
    ensures d in Report(SchemaFindings(HeaderSchema(cfg, header))) <==>
            d.SchemaDiagnostic? && d.finding.code in ALL_CODES && Deserved(HeaderSchema(cfg, header).resolutions, d.finding)
    ensures d in Report(FatalFindings(HeaderSchema(cfg, header))) <==>
            d.SchemaDiagnostic? && d.finding.code in FATAL_CODES && Deserved(HeaderSchema(cfg, header).resolutions, d.finding)
  {
    var schema := HeaderResolution.Schema(HeaderResolution.ResolveAll(cfg.resolver, header), [], []);
    ReportMembers(SchemaFindings(HeaderSchema(cfg, header)), d);
    ReportMembers(FatalFindings(HeaderSchema(cfg, header)), d);
    hide SchemaFindings, FatalFindings, Deserved, Report, SafeSchema;
    if d.SchemaDiagnostic? {
      FindingsMeaning(schema, cfg.unit, d.finding);
      FatalMeaning(schema, cfg.unit, d.finding);
      assert d.finding.code in ALL_CODES by {
        match d.finding.code
        case MissingRequiredField =>
        case SchemaAmbiguous =>
        case UnresolvedColumn =>
        case FuzzyFieldResolution =>
        case SchemaCollision =>
      }
    }
  }

  ghost predicate FatalHeader(cfg: Config, header: seq<string>) {
    exists f: Finding :: f.code in FATAL_CODES && Deserved(HeaderSchema(cfg, header).resolutions, f)
  }

  /**
   * A header is accepted exactly when it deserves no fatal finding, and its report then opens the
   * diagnostics; otherwise the file gives no records, the whole report, and one dead-letter record with the
   * fatal part of it.
   */
  lemma {:induction false} HeaderMeaning(cfg: Config, header: seq<string>)
    ensures LayoutOf(cfg, header).Ok? <==> !FatalHeader(cfg, header)
    ensures match LayoutOf(cfg, header)
            case Ok(layout) =>
              && layout.width == |header| && layout.start.candidates == [] && layout.start.dlq == []
              && Tells(layout.start.diagnostics, cfg, header, ALL_CODES)
            case Err(result) =>
              && result.records == [] && Tells(result.diagnostics, cfg, header, ALL_CODES)
              && |result.dlq| == 1 && result.dlq[0].recordId == cfg.sourceName + ":schema"
              && Tells(result.dlq[0].diagnostics, cfg, header, FATAL_CODES)
  {
    HeaderTells(cfg, header);
    var fatal := FatalFindings(HeaderSchema(cfg, header));
    NoMembers(fatal);
    forall f: Finding ensures f in fatal <==> f.code in FATAL_CODES && Deserved(HeaderSchema(cfg, header).resolutions, f) {
      ReportMembers(fatal, SchemaDiagnostic(f));
      assert SchemaDiagnostic(f) in Report(fatal) <==>
        f.code in FATAL_CODES && Deserved(HeaderSchema(cfg, header).resolutions, f);
    }
    hide HeaderSchema, Deserved, FatalFindings, SchemaFindings, ColumnIndex, Report, Tells;
  }

  // ---------- blank rows ----------

  /** Some cell shows something. */
  ghost predicate Visible(row: seq<string>) {
    exists i, j :: 0 <= i < |row| && 0 <= j < |row[i]| && !IsSpace(row[i][j])
  }

  lemma {:induction false} BlankMeaning(row: seq<string>)
    ensures IsBlank(row) <==> !Visible(row)
  {
    forall i | 0 <= i < |row|
      ensures Strip(row[i]) == "" <==> forall j :: 0 <= j < |row[i]| ==> IsSpace(row[i][j])
    {
      StripBlank(row[i]);
    }
    if IsBlank(row) {
      assert forall i :: 0 <= i < |row| ==> row[i] in row;
    }
  }

  lemma {:induction false} NonBlankConcat(a: seq<seq<string>>, b: seq<seq<string>>)
    ensures NonBlank(a + b) == NonBlank(a) + NonBlank(b)
    decreases |b|
  {
    if b == [] {
      assert a + b == a;
    } else {
      NonBlankConcat(a, b[..|b| - 1]);
      assert (a + b)[..|a + b| - 1] == a + b[..|b| - 1];
    }
  }

  /** A row that shows nothing may be added anywhere in a file: nothing changes, row numbers included. */
  lemma {:induction false} BlankRowsIgnored(cfg: Config, before: seq<seq<string>>, row: seq<string>,
                                            after: seq<seq<string>>, ending: Ending)
    requires !Visible(row)
    ensures Ingest(cfg, before + [row] + after, ending) == Ingest(cfg, before + after, ending)
  {
    BlankMeaning(row);
    LineMeaning(before, row, after);
    NonBlankConcat(before, after);
    hide NonBlank;
    assert NonBlank(before) + [] == NonBlank(before);
  }

  /** The lines of a file are its rows that show something, in order. */
  lemma {:induction false} LineMeaning(before: seq<seq<string>>, row: seq<string>, after: seq<seq<string>>)
    ensures NonBlank(before + [row] + after) == NonBlank(before) + (if Visible(row) then [row] else []) + NonBlank(after)
  {
    BlankMeaning(row);
    NonBlankConcat(before + [row], after);
    NonBlankConcat(before, [row]);
    assert [row][..0] == [] && NonBlank([]) == [];
    assert NonBlank([row]) == if Visible(row) then [row] else [];
  }

  /** A file without lines gives nothing but its reading failure, if there was one. */
  lemma {:induction false} EmptyMeaning(cfg: Config, rows: seq<seq<string>>, ending: Ending)
    requires forall row :: row in rows ==> !Visible(row)
    ensures Ingest(cfg, rows, ending) == Ok(Ingested([], Carried(BrokenOff(cfg, ending)), BrokenOff(cfg, ending)))
  {
    NoLines(rows);
    var result := WithSeriesValidation(cfg, AfterEnding(cfg, EMPTY, ending));
    StepTogether(cfg, EMPTY, [], [], ending, result);
    NothingValidated(cfg.grid);
    hide WithSeriesValidation, AfterEnding, Carried, BrokenOff, Validated;
    assert IssueDlq(cfg, []) == [] && GapCounts([]) == [] && RecordsOf([]) == [];
    assert [] + BrokenOff(cfg, ending) + [] == BrokenOff(cfg, ending);
    assert [] + Carried(result.dlq) + [] == Carried(result.dlq);
    assert result == Ingested([], Carried(BrokenOff(cfg, ending)), BrokenOff(cfg, ending));
  }

  lemma {:induction false} NothingValidated(grid: Option<Grid>)
    ensures Validated([], grid) == Validation([], [], [])
  {
    Ordering.StringOrder();
  }

  lemma {:induction false} NoLines(rows: seq<seq<string>>)
    requires forall row :: row in rows ==> !Visible(row)
    ensures NonBlank(rows) == []
  {
    if rows != [] {
      NoLines(rows[..|rows| - 1]);
      BlankMeaning(rows[|rows| - 1]);
    }
  }
}
